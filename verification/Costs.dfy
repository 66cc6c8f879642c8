/** What a plan costs, read off plan, catalogue and routes. */
module Costs {
  import opened Common
  import opened Disclosure
  import opened Records
  import opened TypeText
  import opened Schema
  import opened Routes
  import opened Plans
  import opened Arguments
  import opened Execution
  import opened Compiler
  import opened Heads
  import opened Acceptance
  import opened LeastOptions

  /** Selected fields and relationships, variables, and worst-case records. */
  datatype Cost = Cost(nodes: nat, arguments: nat, records: nat)

  function Plus(a: Cost, b: Cost): Cost {
    Cost(a.nodes + b.nodes, a.arguments + b.arguments, a.records + b.records)
  }

  predicate AtMost(a: Cost, b: Cost) {
    a.nodes <= b.nodes && a.arguments <= b.arguments && a.records <= b.records
  }

  // ---------------------------------------------------------------- routes

  /** The worst-case records behind a route: a list multiplies by its bound, a named segment adds an object. */
  function RouteRecords(route: Route, bound: nat, records: nat): nat {
    if route == [] then records
    else
      var inner := RouteRecords(route[1..], bound, records);
      var listed := if route[0].isList then bound * inner else inner;
      if route[0].fieldName == "" then listed else 1 + listed
  }

  /** Disclosure levels that a route takes up. */
  function Levels(route: Route): nat {
    if route == [] then 0
    else (if route[0].isList then 1 else 0) + (if route[0].fieldName == "" then 0 else 1) + Levels(route[1..])
  }

  /** No segment has a reserved name. */
  predicate PlainRoute(route: Route) {
    forall i :: 0 <= i < |route| ==> !("__" <= route[i].fieldName)
  }

  ghost function RouteOf(cap: Capability, entityName: string, f: Field): Route
    requires f.relationship.Some?
  {
    var actual := ObjectField(cap.types, entityName, f.name);
    if actual.None? then []
    else
      var route := SpecificRoute(cap.types, f.relationship.value.target, actual.value.ty, cap.limits.maximumDepth);
      if route.None? then [] else route.value
  }

  function InputsOf(cap: Capability, typeName: string, name: string): seq<SchemaInput> {
    var actual := ObjectField(cap.types, typeName, name);
    if actual.None? then [] else actual.value.arguments
  }

  // ---------------------------------------------------------------- the costs of a plan

  ghost function EntityCost(cap: Capability, entityName: string, plan: Plan): Cost
    decreases plan, 1
  {
    var below := if entityName in cap.catalog
                 then RelationshipsCost(cap, entityName, cap.catalog[entityName].fields, plan) else Cost(0, 0, 0);
    Plus(Cost(|plan.fields|, 0, 1), below)
  }

  ghost function RelationshipsCost(cap: Capability, entityName: string, fields: seq<Field>, plan: Plan): Cost
    decreases plan, 0, |fields|
  {
    if fields == [] then Cost(0, 0, 0)
    else
      var rest := RelationshipsCost(cap, entityName, fields[1..], plan);
      if fields[0].name !in plan.relationships || fields[0].relationship.None? then rest
      else Plus(RelationshipCost(cap, entityName, fields[0], plan.relationships[fields[0].name]), rest)
  }

  ghost function RelationshipCost(cap: Capability, entityName: string, f: Field, plan: Plan): Cost
    requires f.relationship.Some?
    decreases plan, 2
  {
    var r := f.relationship.value;
    var below := EntityCost(cap, r.target, plan);
    Cost(1 + below.nodes,
         ArgumentCount(cap.types, InputsOf(cap, entityName, f.name), IsPageable(r), plan.arguments) + below.arguments,
         RouteRecords(RouteOf(cap, entityName, f), ListMaximum(r.bound, plan), below.records))
  }

  // ---------------------------------------------------------------- what the disclosure can be made of

  /** The name and route of a relationship may stand in a disclosure, and no fixed bound on the way is zero. */
  ghost predicate StepDisclosable(cap: Capability, entityName: string, f: Field)
    requires f.relationship.Some?
  {
    && ValidFieldName(f.name) && PlainRoute(RouteOf(cap, entityName, f))
    && (HasList(RouteOf(cap, entityName, f)) ==> f.relationship.value.bound != Some(ServerFixed(0)))
  }

  /** The same for every name and route of a plan, within the nesting that a disclosure may have from `level` on. */
  ghost predicate Disclosable(cap: Capability, entityName: string, plan: Plan, level: nat)
    decreases plan
  {
    && entityName in cap.catalog && level <= MAXIMUM_DISCLOSURE_SCHEMA_DEPTH
    && (plan.fields != map[] ==> level < MAXIMUM_DISCLOSURE_SCHEMA_DEPTH)
    && (forall k :: k in plan.fields ==> ValidFieldName(k))
    && forall f :: f in cap.catalog[entityName].fields && f.name in plan.relationships && f.relationship.Some? ==>
         && StepDisclosable(cap, entityName, f)
         && Disclosable(cap, f.relationship.value.target, plan.relationships[f.name],
                        level + 1 + Levels(RouteOf(cap, entityName, f)))
  }

  // ---------------------------------------------------------------- shapes

  /** The worst case of an object over these field shapes. */
  ghost function WorstObject(shapes: map<string, Shape>): nat {
    Worst(Object(ExportableRule(Public), shapes))
  }

  ghost predicate ValidFields(shapes: map<string, Shape>, level: nat) {
    forall k :: k in shapes ==> ValidFieldName(k) && ValidShape(shapes[k], level)
  }

  lemma {:induction false} WorstFieldsAgree(s: Shape, t: Shape, keys: set<string>)
    requires s.Object? && t.Object? && keys <= s.fields.Keys && keys <= t.fields.Keys
    requires forall k :: k in keys ==> s.fields[k] == t.fields[k]
    ensures WorstFields(s, keys) == WorstFields(t, keys)
    decreases keys
  {
    if keys != {} {
      var k :| k in keys;
      WorstFieldsRemove(s, keys, k);
      WorstFieldsRemove(t, keys, k);
      WorstFieldsAgree(s, t, keys - {k});
    }
  }

  lemma WorstIgnoresRule(rule: Rule, shapes: map<string, Shape>)
    ensures Worst(Object(rule, shapes)) == WorstObject(shapes)
  {
    WorstFieldsAgree(Object(rule, shapes), Object(ExportableRule(Public), shapes), shapes.Keys);
  }

  lemma WorstObjectGrows(shapes: map<string, Shape>, name: string, s: Shape)
    requires name !in shapes
    ensures WorstObject(shapes[name := s]) == WorstObject(shapes) + WorstNested(s)
  {
    var before, after := Object(ExportableRule(Public), shapes), Object(ExportableRule(Public), shapes[name := s]);
    assert after.fields.Keys == shapes.Keys + {name} && after.fields.Keys - {name} == shapes.Keys;
    WorstFieldsRemove(after, after.fields.Keys, name);
    WorstFieldsAgree(after, before, shapes.Keys);
  }

  lemma WorstOfScalars(shapes: map<string, Shape>)
    requires forall k :: k in shapes ==> shapes[k].Scalar?
    ensures WorstObject(shapes) == 1
  {
    ScalarsAreFree(Object(ExportableRule(Public), shapes), shapes.Keys);
  }

  lemma WorstOfOne(rule: Rule, name: string, s: Shape)
    ensures Worst(Object(rule, map[name := s])) == 1 + WorstNested(s)
  {
    var none: map<string, Shape> := map[];
    assert none[name := s] == map[name := s];
    WorstIgnoresRule(rule, none[name := s]);
    WorstObjectGrows(none, name, s);
    WorstOfScalars(none);
  }

  lemma {:induction false} WrapIsCounted(route: Route, sub: seq<Selection>, s: Shape, bound: u32)
    requires !s.Scalar?
    ensures var d := WrapRoute(route, sub, s, bound).1;
      !d.Scalar? && Worst(d) == RouteRecords(route, bound, Worst(s))
    decreases |route|
  {
    if route != [] {
      WrapIsCounted(route[1..], sub, s, bound);
      var d := WrapRoute(route[1..], sub, s, bound).1;
      var listed := if route[0].isList
        then List(ExportableRule(MaximumClassification(d)), bound, None, d) else d;
      WorstOfOne(ExportableRule(MaximumClassification(listed)), route[0].fieldName, listed);
    }
  }

  lemma {:induction false} WrapIsValid(route: Route, sub: seq<Selection>, s: Shape, bound: u32, level: nat)
    ensures ValidShape(WrapRoute(route, sub, s, bound).1, level) <==>
            PlainRoute(route) && (HasList(route) ==> bound > 0) && ValidShape(s, level + Levels(route))
    decreases |route|
  {
    hide ValidShape, WrapSegment, HasList, PlainRoute;
    RouteCons(route);
    if route != [] {
      var segment, rest := route[0], route[1..];
      var below := level + (if segment.isList then 1 else 0) + (if segment.fieldName == "" then 0 else 1);
      WrapIsValid(rest, sub, s, bound, below);
      SegmentIsValid(segment, WrapRoute(rest, sub, s, bound).0, WrapRoute(rest, sub, s, bound).1, bound, level);
    }
  }

  lemma RouteCons(route: Route)
    ensures route == [] ==> PlainRoute(route) && !HasList(route)
    ensures route != [] ==> (PlainRoute(route) <==> !("__" <= route[0].fieldName) && PlainRoute(route[1..]))
    ensures route != [] ==> (HasList(route) <==> route[0].isList || HasList(route[1..]))
  {
    if route != [] {
      var rest := route[1..];
      assert forall i :: 1 <= i < |route| ==> route[i] == rest[i - 1];
      assert forall i :: 0 <= i < |rest| ==> rest[i] == route[i + 1];
    }
  }

  lemma SegmentIsValid(segment: Segment, sub: seq<Selection>, d: Shape, bound: u32, level: nat)
    ensures var below := level + (if segment.isList then 1 else 0) + (if segment.fieldName == "" then 0 else 1);
            ValidShape(WrapSegment(segment, sub, d, bound).1, level) <==>
            !("__" <= segment.fieldName) && (segment.isList ==> bound > 0) && ValidShape(d, below)
  {
    hide ValidIdentity;
    var listed := if segment.isList
      then List(ExportableRule(MaximumClassification(d)), bound, None, d) else d;
    var named := Object(ExportableRule(MaximumClassification(listed)), map[segment.fieldName := listed]);
    assert segment.fieldName in named.fields;
    assert forall k :: k in named.fields ==> k == segment.fieldName;
  }

  // ---------------------------------------------------------------- the compiler charges exactly these costs

  ghost predicate Charged(before: State, after: State, cost: Cost) {
    && after.selectedFields == before.selectedFields + cost.nodes
    && after.arguments == before.arguments + cost.arguments
  }

  function FieldNames(fields: seq<Field>): set<string> {
    set i | 0 <= i < |fields| :: fields[i].name
  }

  ghost predicate DistinctNames(fields: seq<Field>) {
    forall i, j :: 0 <= i < j < |fields| ==> fields[i].name != fields[j].name
  }

  lemma FieldTail(fields: seq<Field>)
    requires fields != [] && DistinctNames(fields)
    ensures DistinctNames(fields[1..]) && fields[0].name !in FieldNames(fields[1..])
    ensures FieldNames(fields) == FieldNames(fields[1..]) + {fields[0].name}
    ensures forall f :: f in fields <==> f == fields[0] || f in fields[1..]
    ensures forall f :: f in fields[1..] ==> f.name in FieldNames(fields[1..])
  {
    var rest := fields[1..];
    assert forall i :: 0 <= i < |rest| ==> rest[i] == fields[i + 1];
    assert forall i :: 1 <= i < |fields| ==> fields[i] == rest[i - 1];
    assert fields == [fields[0]] + rest;
  }

  /** From `p` to `q` exactly the scalars `names` were added. */
  ghost predicate AddsScalars(p: Partial, q: Partial, names: set<string>) {
    && Charged(p.state, q.state, Cost(|names|, 0, 0))
    && q.shapes.Keys == p.shapes.Keys + names
    && ((forall k :: k in p.shapes ==> p.shapes[k].Scalar?) ==> forall k :: k in q.shapes ==> q.shapes[k].Scalar?)
  }

  lemma {:induction false} ScalarsAreCharged(
    cap: Capability, entityName: string, fields: seq<Field>, plan: Plan, p: Partial, q: Partial)
    requires DistinctNames(fields) && CompileScalars(cap, entityName, fields, plan, p) == Ok(q)
    ensures AddsScalars(p, q, plan.fields.Keys * FieldNames(fields))
    decreases |fields|
  {
    hide DistinctNames, FieldNames, SelectableScalar, AddScalar, ObjectField, AddsScalars;
    if fields == [] {
      NoFieldNames(plan.fields.Keys);
      NoScalarAdded(p);
    } else {
      var f, rest := fields[0], fields[1..];
      FieldTail(fields);
      NamedCount(plan.fields.Keys, FieldNames(rest), f.name);
      if f.name !in plan.fields {
        ScalarsAreCharged(cap, entityName, rest, plan, p, q);
        assert plan.fields.Keys * FieldNames(fields) == plan.fields.Keys * FieldNames(rest);
      } else {
        ScalarsAreCharged(cap, entityName, rest, plan, AddScalar(p, f), q);
        ScalarIsAdded(p, f, q, plan.fields.Keys * FieldNames(rest));
      }
    }
  }

  lemma NoScalarAdded(p: Partial)
    ensures AddsScalars(p, p, {})
  {
  }

  lemma ScalarIsAdded(p: Partial, f: Field, q: Partial, names: set<string>)
    requires AddsScalars(AddScalar(p, f), q, names) && f.name !in names
    ensures AddsScalars(p, q, names + {f.name})
  {
  }

  lemma NoFieldNames(keys: set<string>)
    ensures keys * FieldNames([]) == {}
  {
  }

  lemma HeadIsCharged(
    cap: Capability, entityName: string, f: Field, plan: Plan, ancestry: seq<string>, st: State, head: Head)
    requires WellFormedTypes(cap.types) && CompileRelationshipHead(cap, entityName, f, plan, ancestry, st) == Ok(head)
    ensures head.state.selectedFields == st.selectedFields
    ensures head.state.arguments == st.arguments
      + ArgumentCount(cap.types, InputsOf(cap, entityName, f.name), IsPageable(f.relationship.value), plan.arguments)
    ensures ObjectField(cap.types, entityName, f.name).Some?
      && head.ty == ObjectField(cap.types, entityName, f.name).value.ty
    ensures head.maximum == ListMaximum(f.relationship.value.bound, plan)
    ensures head.maximum > 0 <==> f.relationship.value.bound != Some(ServerFixed(0))
  {
    hide CompileArguments, ArgumentCount;
    var actual := ObjectField(cap.types, entityName, f.name).value;
    var paged := IsPageable(f.relationship.value);
    assert actual in cap.types[entityName].fields && DistinctInputNames(actual.arguments);
    ArgumentsAreCounted(cap, st, actual.arguments, paged, paged, plan.arguments, plan.maximumItems);
  }

  /** One step of the compilation, measured. */
  ghost predicate Measured(before: Partial, after: Partial, cost: Cost, disclosable: bool, level: nat) {
    && Charged(before.state, after.state, cost)
    && WorstObject(after.shapes) == WorstObject(before.shapes) + cost.records
    && (ValidFields(after.shapes, level) <==> ValidFields(before.shapes, level) && disclosable)
  }

  lemma ValidFieldsGrow(shapes: map<string, Shape>, name: string, s: Shape, level: nat)
    requires name !in shapes
    ensures ValidFields(shapes[name := s], level) <==>
            ValidFields(shapes, level) && ValidFieldName(name) && ValidShape(s, level)
  {
    var after := shapes[name := s];
    assert forall k :: k in after <==> k == name || k in shapes;
    assert forall k :: k in shapes ==> after[k] == shapes[k];
  }

  ghost predicate RelationshipDisclosable(cap: Capability, entityName: string, f: Field, plan: Plan, level: nat)
    requires f.relationship.Some?
  {
    && StepDisclosable(cap, entityName, f)
    && Disclosable(cap, f.relationship.value.target, plan, level + Levels(RouteOf(cap, entityName, f)))
  }

  lemma {:induction false} RelationshipIsCharged(
    cap: Capability, entityName: string, f: Field, plan: Plan, ancestry: seq<string>, depth: nat, p: Partial,
    q: Partial, level: nat)
    requires WellFormedTypes(cap.types) && ValidCatalog(cap.catalog) && depth < cap.limits.maximumDepth
    requires CompileRelationship(cap, entityName, f, plan, ancestry, depth, p) == Ok(q) && f.name !in p.shapes
    ensures f.relationship.Some? && q.shapes.Keys == p.shapes.Keys + {f.name}
    ensures Measured(p, q, RelationshipCost(cap, entityName, f, plan),
                     RelationshipDisclosable(cap, entityName, f, plan, level), level)
    decreases cap.limits.maximumDepth - depth, 0
  {
    hide CompileEntity, CompileRelationshipHead, ValidCatalog, WellFormedTypes, Disclosable, ValidShape, ValidFields,
      ArgumentCount, WorstObject, EntityCost, SpecificRoute, ListMaximum, PlainRoute, HasList, RouteRecords, Worst,
      Levels, WrapRoute;
    var head := CompileRelationshipHead(cap, entityName, f, plan, ancestry, p.state).value;
    HeadIsCharged(cap, entityName, f, plan, ancestry, p.state, head);
    var target := f.relationship.value.target;
    var nested := CompileEntity(cap, head.state, target, plan, ancestry + [target], depth + 1).value;
    var route := RouteOf(cap, entityName, f);
    EntityIsCharged(cap, head.state, target, plan, ancestry + [target], depth + 1, nested, level + Levels(route));
    WrapIsCounted(route, nested.selections, nested.shape, head.maximum);
    WrapIsValid(route, nested.selections, nested.shape, head.maximum, level);
    var d := WrapRoute(route, nested.selections, nested.shape, head.maximum).1;
    WorstObjectGrows(p.shapes, f.name, d);
    ValidFieldsGrow(p.shapes, f.name, d, level);
    assert q.shapes == p.shapes[f.name := d] && q.state == Count(nested.state);
  }

  ghost predicate AllDisclosable(cap: Capability, entityName: string, fields: seq<Field>, plan: Plan, level: nat) {
    forall f :: f in fields && f.name in plan.relationships && f.relationship.Some? ==>
      RelationshipDisclosable(cap, entityName, f, plan.relationships[f.name], level)
  }

  lemma {:induction false} RelationshipsAreCharged(
    cap: Capability, entityName: string, fields: seq<Field>, plan: Plan, ancestry: seq<string>, depth: nat,
    p: Partial, q: Partial, level: nat)
    requires WellFormedTypes(cap.types) && ValidCatalog(cap.catalog) && depth < cap.limits.maximumDepth
    requires DistinctNames(fields) && CompileRelationships(cap, entityName, fields, plan, ancestry, depth, p) == Ok(q)
    requires forall f :: f in fields && f.name in plan.relationships ==> f.name !in p.shapes
    ensures Measured(p, q, RelationshipsCost(cap, entityName, fields, plan),
                     AllDisclosable(cap, entityName, fields, plan, level), level)
    decreases cap.limits.maximumDepth - depth, 1, |fields|
  {
    hide CompileRelationship, ValidCatalog, WellFormedTypes, RelationshipDisclosable, WorstObject, ValidFields,
      DistinctNames, FieldNames, RelationshipCost;
    if fields != [] {
      var f, rest := fields[0], fields[1..];
      FieldTail(fields);
      if f.name !in plan.relationships {
        RelationshipsAreCharged(cap, entityName, rest, plan, ancestry, depth, p, q, level);
      } else {
        var child := plan.relationships[f.name];
        var m := CompileRelationship(cap, entityName, f, child, ancestry, depth, p).value;
        RelationshipIsCharged(cap, entityName, f, child, ancestry, depth, p, m, level);
        RelationshipsAreCharged(cap, entityName, rest, plan, ancestry, depth, m, q, level);
      }
    }
  }

  /** What is compiled for an entity costs what is read off the plan, and is a valid shape exactly when disclosable. */
  lemma {:induction false} EntityIsCharged(
    cap: Capability, st: State, entityName: string, plan: Plan, ancestry: seq<string>, depth: nat, c: CompiledEntity,
    level: nat)
    requires WellFormedTypes(cap.types) && ValidCatalog(cap.catalog)
    requires CompileEntity(cap, st, entityName, plan, ancestry, depth) == Ok(c)
    ensures Charged(st, c.state, EntityCost(cap, entityName, plan))
    ensures c.shape.Object? && Worst(c.shape) == EntityCost(cap, entityName, plan).records
    ensures ValidShape(c.shape, level) <==> Disclosable(cap, entityName, plan, level)
    decreases cap.limits.maximumDepth - depth, 2
  {
    hide CompileScalars, CompileRelationships, ValidShape, WellFormedTypes, ValidCatalog, WorstObject, Worst,
      RelationshipsCost, RelationshipDisclosable, FieldNames, ValidFields, AllDisclosable, Disclosable, HasField;
    var fields := cap.catalog[entityName].fields;
    NamesAreDistinct(cap, entityName);
    var start := Partial(st, [], map[]);
    var scalars := CompileScalars(cap, entityName, fields, plan, start).value;
    ScalarStage(cap, st, entityName, fields, plan, scalars, level);
    var p := CompileRelationships(cap, entityName, fields, plan, ancestry, depth, scalars).value;
    forall f | f in fields && f.name in plan.relationships ensures f.name !in scalars.shapes {
      NamedIsRelationship(cap, entityName, fields, plan, ancestry, depth, scalars, f);
    }
    RelationshipsAreCharged(cap, entityName, fields, plan, ancestry, depth, scalars, p, level + 1);
    WorstIgnoresRule(c.shape.rule, p.shapes);
    ObjectIsValid(c.shape, level);
    DisclosableIff(cap, entityName, plan, level);
  }

  lemma NamesAreDistinct(cap: Capability, entityName: string)
    requires ValidCatalog(cap.catalog) && entityName in cap.catalog
    ensures DistinctNames(cap.catalog[entityName].fields)
  {
    assert ValidEntity(cap.catalog[entityName]);
  }

  lemma ScalarStage(
    cap: Capability, st: State, entityName: string, fields: seq<Field>, plan: Plan, q: Partial, level: nat)
    requires DistinctNames(fields) && CompileScalars(cap, entityName, fields, plan, Partial(st, [], map[])) == Ok(q)
    requires forall k :: k in plan.fields ==> HasField(fields, k)
    ensures Charged(st, q.state, Cost(|plan.fields|, 0, 0)) && WorstObject(q.shapes) == 1
    ensures forall f :: f in fields && f.relationship.Some? ==> f.name !in q.shapes
    ensures ValidFields(q.shapes, level + 1) <==>
      && (plan.fields != map[] ==> level + 1 <= MAXIMUM_DISCLOSURE_SCHEMA_DEPTH)
      && forall k :: k in plan.fields ==> ValidFieldName(k)
  {
    hide CompileScalars, FieldNames, WorstObject, ValidFields, HasField, DistinctNames;
    ScalarsAreCharged(cap, entityName, fields, plan, Partial(st, [], map[]), q);
    ScalarsOkIff(cap, entityName, fields, plan, Partial(st, [], map[]));
    AllNamed(fields, plan);
    WorstOfScalars(q.shapes);
    ScalarFieldsAreValid(q.shapes, level + 1);
    assert q.shapes.Keys == plan.fields.Keys;
  }

  lemma AllNamed(fields: seq<Field>, plan: Plan)
    requires forall k :: k in plan.fields ==> HasField(fields, k)
    ensures plan.fields.Keys * FieldNames(fields) == plan.fields.Keys && |plan.fields.Keys| == |plan.fields|
  {
    assert forall k :: HasField(fields, k) ==> k in FieldNames(fields);
  }

  lemma {:induction false} NamedIsRelationship(
    cap: Capability, entityName: string, fields: seq<Field>, plan: Plan, ancestry: seq<string>, depth: nat,
    p: Partial, f: Field)
    requires depth < cap.limits.maximumDepth && f in fields && f.name in plan.relationships
    requires CompileRelationships(cap, entityName, fields, plan, ancestry, depth, p).Ok?
    ensures f.relationship.Some?
    decreases |fields|
  {
    assert fields == [fields[0]] + fields[1..];
    if f in fields[1..] {
      if fields[0].name !in plan.relationships {
        NamedIsRelationship(cap, entityName, fields[1..], plan, ancestry, depth, p, f);
      } else {
        var child := plan.relationships[fields[0].name];
        var q := CompileRelationship(cap, entityName, fields[0], child, ancestry, depth, p).value;
        NamedIsRelationship(cap, entityName, fields[1..], plan, ancestry, depth, q, f);
      }
    }
  }

  lemma ScalarFieldsAreValid(shapes: map<string, Shape>, level: nat)
    requires forall k :: k in shapes ==> shapes[k].Scalar?
    ensures ValidFields(shapes, level) <==>
      (shapes != map[] ==> level <= MAXIMUM_DISCLOSURE_SCHEMA_DEPTH) && forall k :: k in shapes ==> ValidFieldName(k)
  {
    if shapes != map[] {
      var k :| k in shapes;
      assert ValidShape(shapes[k], level) <==> level <= MAXIMUM_DISCLOSURE_SCHEMA_DEPTH;
    }
  }

  lemma ObjectIsValid(s: Shape, level: nat)
    requires s.Object?
    ensures ValidShape(s, level) <==> level <= MAXIMUM_DISCLOSURE_SCHEMA_DEPTH && ValidFields(s.fields, level + 1)
  {
  }

  lemma DisclosableIff(cap: Capability, entityName: string, plan: Plan, level: nat)
    requires entityName in cap.catalog
    ensures Disclosable(cap, entityName, plan, level) <==>
      && level <= MAXIMUM_DISCLOSURE_SCHEMA_DEPTH
      && (plan.fields != map[] ==> level + 1 <= MAXIMUM_DISCLOSURE_SCHEMA_DEPTH)
      && (forall k :: k in plan.fields ==> ValidFieldName(k))
      && AllDisclosable(cap, entityName, cap.catalog[entityName].fields, plan, level + 1)
  {
  }
}
