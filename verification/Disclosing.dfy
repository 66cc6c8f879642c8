/** Compiler correctness: what a compiled plan answers, its own disclosure accepts. */
module Disclosing {
  import opened Common
  import opened JsonModel
  import opened Disclosure
  import opened Records
  import opened TypeText
  import opened Schema
  import opened Routes
  import opened Execution
  import opened Plans
  import opened Arguments
  import opened Compiler
  import opened Lifting

  // ---------------------------------------------------------------- what the server promises

  /** Every list met while following a route holds at most `n` items. */
  ghost predicate RouteBounded(w: World, d: Data, route: Route, n: nat)
    decreases |route|
  {
    if route == [] then true
    else if route[0].fieldName == "" then
      d.Items? ==> |d.items| <= n && forall i :: 0 <= i < |d.items| ==> RouteBounded(w, d.items[i], route[1..], n)
    else
      d.Node? ==>
        var e := w.resolve(d.id, route[0].fieldName, map[]);
        if route[0].isList then
          e.Items? ==> |e.items| <= n && forall i :: 0 <= i < |e.items| ==> RouteBounded(w, e.items[i], route[1..], n)
        else RouteBounded(w, e, route[1..], n)
  }

  /** A resolver honours the page size it is given, or its own fixed ceiling. */
  ghost predicate HonoursField(cap: Capability, w: World, id: nat, f: Field, arguments: map<string, Json>) {
    var actual := ObjectField(cap.types, w.typeOf(id), f.name);
    f.relationship.Some? && actual.Some? ==>
      var route := SpecificRoute(cap.types, f.relationship.value.target, actual.value.ty, cap.limits.maximumDepth);
      route.Some? ==>
        var d := w.resolve(id, f.name, arguments);
        match f.relationship.value.bound
        case Some(ServerFixed(maximumItems)) => RouteBounded(w, d, route.value, maximumItems)
        case Some(Pageable(_)) =>
          forall n: nat :: CarriesLimit(cap.types, actual.value.arguments, arguments, n) ==>
            RouteBounded(w, d, route.value, n)
        case None => true
  }

  ghost predicate HonoursBounds(cap: Capability, w: World) {
    forall id: nat, f: Field, arguments: map<string, Json> ::
      w.typeOf(id) in cap.catalog && f in cap.catalog[w.typeOf(id)].fields ==> HonoursField(cap, w, id, f, arguments)
  }

  ghost predicate HonoursRoot(cap: Capability, w: World, rootId: nat) {
    var root := ObjectField(cap.types, cap.queryRoot, cap.fieldName);
    && w.typeOf(rootId) == cap.queryRoot
    && (root.Some? ==>
          forall n: nat, arguments: map<string, Json> :: CarriesLimit(cap.types, root.value.arguments, arguments, n) ==>
            RouteBounded(w, w.resolve(rootId, cap.fieldName, arguments), cap.route, n))
  }

  // ---------------------------------------------------------------- what capability compilation checked

  /** `validate_semantic_entities_against_schema`, as far as results depend on it. */
  ghost predicate ValidatedEntity(types: Types, entityName: string, entity: Entity) {
    forall f :: f in entity.fields ==>
      var actual := ObjectField(types, entityName, f.name);
      && actual.Some?
      && (f.relationship.Some? ==>
            var route := SpecificRoute(types, f.relationship.value.target, actual.value.ty, 8);
            && route.Some?
            && (HasList(route.value) <==> f.relationship.value.cardinality == Many))
  }

  ghost predicate ValidatedEntities(types: Types, catalog: Catalog) {
    forall name :: name in catalog ==> IsObject(types, name) && ValidatedEntity(types, name, catalog[name])
  }

  /** Scalar-classed fields have leaf types: no lists, no objects. */
  ghost predicate LeafScalars(types: Types, catalog: Catalog) {
    forall name, f :: name in catalog && f in catalog[name].fields && f.relationship.None? ==>
      var actual := ObjectField(types, name, f.name);
      actual.Some? ==> actual.value.ty.Named? && !IsObject(types, actual.value.ty.name)
  }

  ghost predicate RouteFrom(types: Types, ty: Type, route: Route, target: string) {
    RootListRoute(ty) <= route && Leads(types, ty.Base(), route[|RootListRoute(ty)|..], target)
  }

  ghost predicate SoundSchema(cap: Capability) {
    && WellFormedTypes(cap.types) && FlatObjectLists(cap.types)
    && ValidCatalog(cap.catalog) && ValidatedEntities(cap.types, cap.catalog) && LeafScalars(cap.types, cap.catalog)
    && cap.limits.maximumDepth <= 8
  }

  // ---------------------------------------------------------------- routes

  lemma {:induction false} HitsGrow(types: Types, stops: set<string>, start: string, k: nat, m: nat)
    requires k <= m
    ensures HitsBelow(types, stops, start, k) <= HitsBelow(types, stops, start, m)
    decreases m - k
  {
    if k < m {
      HitsGrow(types, stops, start, k + 1, m);
      assert HitsBelow(types, stops, start, k) <= HitsBelow(types, stops, start, k + 1);
    }
  }

  /** A deeper search finds the same shortest route. */
  lemma RouteIsStable(types: Types, target: string, ty: Type, k: nat, m: nat)
    requires k <= m && SpecificRoute(types, target, ty, k).Some?
    ensures SpecificRoute(types, target, ty, m) == SpecificRoute(types, target, ty, k)
  {
    HitsGrow(types, {target}, ty.Base(), k + 1, m + 1);
  }

  lemma StepHasName(types: Types, from: string, segment: Segment, to: string)
    requires WellFormedTypes(types) && Step(types, from, segment, to)
    ensures segment.fieldName != "" && IsObject(types, from) && IsObject(types, to)
  {
  }

  lemma {:induction false} NoListIsBounded(
    types: Types, w: World, start: string, route: Route, target: string, d: Data, n: nat)
    requires WellFormedTypes(types) && Leads(types, start, route, target) && !HasList(route)
    ensures RouteBounded(w, d, route, n)
    decreases |route|
  {
    if route != [] {
      var next :| Step(types, start, route[0], next) && Leads(types, next, route[1..], target);
      StepHasName(types, start, route[0], next);
      assert forall i :: 0 <= i < |route[1..]| ==> route[1..][i] == route[i + 1];
      if d.Node? {
        NoListIsBounded(types, w, next, route[1..], target, w.resolve(d.id, route[0].fieldName, map[]), n);
      }
    }
  }

  ghost predicate AtType(w: World, d: Data, typeName: string) {
    d.Absent? || (d.Node? && w.typeOf(d.id) == typeName)
  }

  lemma ListDiscloses(w: World, vars: Variables, d: Data, sub: seq<Selection>, rule: Rule, n: u32, item: Shape)
    requires d.Items? && |d.items| <= n && rule.disposition == Exportable
    requires forall i :: 0 <= i < |d.items| ==> Discloses(Complete(w, vars, d.items[i], sub), item)
    ensures Discloses(Complete(w, vars, d, sub), List(rule, n, None, item))
  {
  }

  lemma WrapIsExportable(route: Route, sub: seq<Selection>, shape: Shape, n: u32)
    requires shape.rule.disposition == Exportable
    ensures WrapRoute(route, sub, shape, n).1.rule.disposition == Exportable
  {
  }

  /** Wrapping along a route lines up with the data met along that route, node for node. */
  lemma {:induction false} WrapDiscloses(
    types: Types, w: World, vars: Variables, start: string, route: Route, target: string, sub: seq<Selection>,
    shape: Shape, n: u32, d: Data)
    requires WellFormedTypes(types) && FlatObjectLists(types) && ConformingWorld(types, w)
    requires Leads(types, start, route, target) && AtType(w, d, start) && RouteBounded(w, d, route, n)
    requires NodeDiscloses(w, vars, target, sub, shape)
    ensures Discloses(Complete(w, vars, d, WrapRoute(route, sub, shape, n).0), WrapRoute(route, sub, shape, n).1)
    decreases |route|
  {
    WrapIsExportable(route, sub, shape, n);
    if route != [] && d.Node? {
      var segment, rest := route[0], route[1..];
      var next :| Step(types, start, segment, next) && Leads(types, next, rest, target);
      StepHasName(types, start, segment, next);
      var (inner, innerShape) := WrapRoute(rest, sub, shape, n);
      var e := w.resolve(d.id, segment.fieldName, map[]);
      var s := Selection(segment.fieldName, segment.fieldName, [], inner);
      var listed := if segment.isList
        then List(ExportableRule(MaximumClassification(innerShape)), n, None, innerShape) else innerShape;
      StepData(types, w, d, start, segment, next);
      WrapIsExportable(rest, sub, shape, n);
      if segment.isList && e.Items? {
        forall i | 0 <= i < |e.items| ensures Discloses(Complete(w, vars, e.items[i], inner), innerShape) {
          WrapDiscloses(types, w, vars, next, rest, target, sub, shape, n, e.items[i]);
        }
        ListDiscloses(w, vars, e, inner, listed.rule, n, innerShape);
      } else if !segment.isList {
        WrapDiscloses(types, w, vars, next, rest, target, sub, shape, n, e);
      }
      assert Discloses(Complete(w, vars, e, inner), listed);
      SingletonDiscloses(w, vars, d.id, s, listed);
    }
  }

  lemma StepData(types: Types, w: World, d: Data, start: string, segment: Segment, next: string)
    requires FlatObjectLists(types) && ConformingWorld(types, w)
    requires d.Node? && w.typeOf(d.id) == start && Step(types, start, segment, next)
    ensures var e := w.resolve(d.id, segment.fieldName, map[]);
            if segment.isList
              then e.Absent? || (e.Items? && forall i :: 0 <= i < |e.items| ==> AtType(w, e.items[i], next))
            else AtType(w, e, next)
  {
    var f := ObjectField(types, start, segment.fieldName).value;
    var e := w.resolve(d.id, segment.fieldName, map[]);
    assert Fits(types, w, e, f.ty);
    if segment.isList && e.Items? {
      assert f in types[start].fields && f.ty.item.Named?;
      assert f.ty.Base() == f.ty.item.Base() == f.ty.item.name;
      forall i | 0 <= i < |e.items| ensures AtType(w, e.items[i], next) {
        assert Fits(types, w, e.items[i], f.ty.item);
      }
    }
  }

  lemma SingletonDiscloses(w: World, vars: Variables, id: nat, s: Selection, shape: Shape)
    requires Discloses(ExecuteField(w, vars, id, s), shape)
    ensures Discloses(Complete(w, vars, Node(id), [s]),
      Object(ExportableRule(MaximumClassification(shape)), map[s.key := shape]))
  {
    var entries := ExecuteSelections(w, vars, id, [s]);
    assert entries == [Entry(s.key, ExecuteField(w, vars, id, s))];
  }

  /** The same for a field of any flat type, whose own list wrapper is the unnamed leading segment. */
  lemma FieldWrapDiscloses(types: Types, w: World, vars: Variables, ty: Type, route: Route, target: string,
                           sub: seq<Selection>, shape: Shape, n: u32, d: Data)
    requires WellFormedTypes(types) && FlatObjectLists(types) && ConformingWorld(types, w)
    requires IsObject(types, ty.Base()) && (ty.ListOf? ==> ty.item.Named?) && Fits(types, w, d, ty)
    requires RouteFrom(types, ty, route, target) && RouteBounded(w, d, route, n)
    requires NodeDiscloses(w, vars, target, sub, shape)
    ensures Discloses(Complete(w, vars, d, WrapRoute(route, sub, shape, n).0), WrapRoute(route, sub, shape, n).1)
  {
    WrapIsExportable(route, sub, shape, n);
    if ty.ListOf? {
      var rest := route[1..];
      assert route[0] == RootListRoute(ty)[0] == Segment("", true);
      var (inner, innerShape) := WrapRoute(rest, sub, shape, n);
      if d.Items? {
        forall i | 0 <= i < |d.items| ensures Discloses(Complete(w, vars, d.items[i], inner), innerShape) {
          assert Fits(types, w, d.items[i], ty.item);
          WrapDiscloses(types, w, vars, ty.Base(), rest, target, sub, shape, n, d.items[i]);
        }
        ListDiscloses(w, vars, d, inner, ExportableRule(MaximumClassification(innerShape)), n, innerShape);
      }
    } else {
      assert route[0..] == route;
      WrapDiscloses(types, w, vars, ty.Base(), route, target, sub, shape, n, d);
    }
  }

  // ---------------------------------------------------------------- entities

  /** Everything rendered so far is disclosed by the shape recorded for it. */
  ghost predicate PartialDiscloses(w: World, vars: Variables, entityName: string, p: Partial) {
    && DistinctKeys(p.rendered)
    && (forall k :: k in p.shapes <==> exists i :: 0 <= i < |p.rendered| && p.rendered[i].key == k)
    && forall i :: 0 <= i < |p.rendered| ==>
         p.rendered[i].key in p.shapes
           && FieldDiscloses(w, vars, entityName, p.rendered[i], p.shapes[p.rendered[i].key])
  }

  lemma PartialAppend(
    w: World, vars: Variables, entityName: string, p: Partial, state: State, s: Selection, shape: Shape)
    requires PartialDiscloses(w, vars, entityName, p) && s.key !in p.shapes
    requires FieldDiscloses(w, vars, entityName, s, shape)
    ensures PartialDiscloses(w, vars, entityName, Partial(state, p.rendered + [s], p.shapes[s.key := shape]))
  {
    var q := Partial(state, p.rendered + [s], p.shapes[s.key := shape]);
    assert forall i :: 0 <= i < |p.rendered| ==> q.rendered[i] == p.rendered[i];
    assert q.rendered[|p.rendered|] == s;
    forall k | k in p.shapes ensures exists i :: 0 <= i < |q.rendered| && q.rendered[i].key == k {
      var i :| 0 <= i < |p.rendered| && p.rendered[i].key == k;
      assert q.rendered[i].key == k;
    }
  }

  lemma ScalarDiscloses(cap: Capability, w: World, vars: Variables, entityName: string, f: Field)
    requires SoundSchema(cap) && ConformingWorld(cap.types, w)
    requires entityName in cap.catalog && f in cap.catalog[entityName].fields && f.relationship.None?
    ensures FieldDiscloses(w, vars, entityName, Selection(f.name, f.name, [], []),
      Scalar(ExportableRule(f.classification)))
  {
    assert ValidatedEntity(cap.types, entityName, cap.catalog[entityName]);
    var actual := ObjectField(cap.types, entityName, f.name).value;
    forall id: nat | w.typeOf(id) == entityName
      ensures Discloses(ExecuteField(w, vars, id, Selection(f.name, f.name, [], [])),
        Scalar(ExportableRule(f.classification)))
    {
      assert Fits(cap.types, w, w.resolve(id, f.name, map[]), actual.ty);
    }
  }

  lemma {:induction false} ScalarsDisclose(
    cap: Capability, w: World, vars: Variables, entityName: string, fields: seq<Field>, plan: Plan, p: Partial)
    requires SoundSchema(cap) && ConformingWorld(cap.types, w) && entityName in cap.catalog
    requires forall f :: f in fields ==> f in cap.catalog[entityName].fields && f.name !in p.shapes
    requires forall i, j :: 0 <= i < j < |fields| ==> fields[i].name != fields[j].name
    requires PartialDiscloses(w, vars, entityName, p) && CompileScalars(cap, entityName, fields, plan, p).Ok?
    ensures var q := CompileScalars(cap, entityName, fields, plan, p).value;
            && PartialDiscloses(w, vars, entityName, q)
            && forall k :: k in q.shapes ==>
                 k in p.shapes || exists f :: f in fields && f.name == k && f.relationship.None?
    decreases |fields|
  {
    if fields != [] {
      var f, rest := fields[0], fields[1..];
      assert forall i :: 0 <= i < |rest| ==> rest[i] == fields[i + 1];
      if f.name !in plan.fields {
        ScalarsDisclose(cap, w, vars, entityName, rest, plan, p);
      } else {
        ScalarDiscloses(cap, w, vars, entityName, f);
        PartialAppend(w, vars, entityName, p, Count(p.state), Selection(f.name, f.name, [], []),
          Scalar(ExportableRule(f.classification)));
        ScalarsDisclose(cap, w, vars, entityName, rest, plan, AddScalar(p, f));
      }
    }
  }

  /** The list bound in the disclosure is the bound under which the resolver answered. */
  lemma HeadIsHonoured(
    cap: Capability, w: World, vars: Variables, entityName: string, f: Field, plan: Plan, ancestry: seq<string>,
    st: State, id: nat)
    requires SoundSchema(cap) && HonoursBounds(cap, w) && Consistent(st)
    requires entityName in cap.catalog && f in cap.catalog[entityName].fields && w.typeOf(id) == entityName
    requires CompileRelationshipHead(cap, entityName, f, plan, ancestry, st).Ok?
    requires Submap(CompileRelationshipHead(cap, entityName, f, plan, ancestry, st).value.state.variables, vars)
    requires SpecificRoute(cap.types, f.relationship.value.target,
                           CompileRelationshipHead(cap, entityName, f, plan, ancestry, st).value.ty,
                             cap.limits.maximumDepth).Some?
    ensures var head := CompileRelationshipHead(cap, entityName, f, plan, ancestry, st).value;
            var route := SpecificRoute(cap.types, f.relationship.value.target, head.ty, cap.limits.maximumDepth).value;
            RouteBounded(w, w.resolve(id, f.name, ArgumentValues(head.arguments, vars)), route, head.maximum)
  {
    var head := CompileRelationshipHead(cap, entityName, f, plan, ancestry, st).value;
    var r := f.relationship.value;
    var actual := ObjectField(cap.types, entityName, f.name).value;
    var route := SpecificRoute(cap.types, r.target, head.ty, cap.limits.maximumDepth).value;
    var arguments := ArgumentValues(head.arguments, vars);
    var pageable := ModelMaySelectMaximum(CollectionExecution(r).value);
    ArgumentsAreLifted(cap.types, cap.limits, cap.validators, st, actual.arguments, plan.arguments, plan.maximumItems,
      pageable, pageable, vars);
    assert HonoursField(cap, w, id, f, arguments);
    if r.bound.None? {
      RouteIsStable(cap.types, r.target, head.ty, cap.limits.maximumDepth, 8);
      assert ValidatedEntity(cap.types, entityName, cap.catalog[entityName]);
      SpecificRouteIsShortest(cap.types, r.target, head.ty, cap.limits.maximumDepth);
      assert !HasList(route);
      ListLeadHasList(head.ty, route);
      assert route[0..] == route;
      NoListIsBounded(cap.types, w, head.ty.Base(), route, r.target, w.resolve(id, f.name, arguments), head.maximum);
    }
  }

  lemma ListLeadHasList(ty: Type, route: Route)
    requires RootListRoute(ty) <= route
    ensures ty.ListOf? ==> HasList(route)
  {
    if ty.ListOf? {
      assert route[0] == RootListRoute(ty)[0];
    }
  }

  lemma BaseIsObject(types: Types, ty: Type, route: Route, target: string)
    requires RouteFrom(types, ty, route, target) && IsObject(types, target)
    ensures IsObject(types, ty.Base())
  {
  }

  lemma {:induction false} RelationshipDiscloses(
    cap: Capability, w: World, vars: Variables, entityName: string, f: Field, plan: Plan, ancestry: seq<string>,
    depth: nat, p: Partial, q: Partial)
    requires SoundSchema(cap) && ConformingWorld(cap.types, w) && HonoursBounds(cap, w) && Consistent(p.state)
    requires entityName in cap.catalog && f in cap.catalog[entityName].fields && depth < cap.limits.maximumDepth
    requires f.name !in p.shapes && PartialDiscloses(w, vars, entityName, p)
    requires CompileRelationship(cap, entityName, f, plan, ancestry, depth, p) == Ok(q)
      && Submap(q.state.variables, vars)
    ensures PartialDiscloses(w, vars, entityName, q)
    decreases cap.limits.maximumDepth - depth, 0
  {
    hide SoundSchema, ConformingWorld, HonoursBounds, PartialDiscloses, NodeDiscloses, Consistent;
    var head := CompileRelationshipHead(cap, entityName, f, plan, ancestry, p.state).value;
    var target := f.relationship.value.target;
    HeadLifts(cap, entityName, f, plan, ancestry, p.state);
    EntityLifts(cap, head.state, target, plan, ancestry + [target], depth + 1);
    var nested := CompileEntity(cap, head.state, target, plan, ancestry + [target], depth + 1).value;
    EntityDiscloses(cap, w, vars, head.state, target, plan, ancestry + [target], depth + 1, nested);
    var route := SpecificRoute(cap.types, target, head.ty, cap.limits.maximumDepth).value;
    var wrapped := WrapRoute(route, nested.selections, nested.shape, head.maximum);
    var s := Selection(f.name, f.name, head.arguments, wrapped.0);
    forall id: nat | w.typeOf(id) == entityName ensures Discloses(ExecuteField(w, vars, id, s), wrapped.1) {
      HeadIsHonoured(cap, w, vars, entityName, f, plan, ancestry, p.state, id);
      RelationshipFieldDiscloses(cap, w, vars, entityName, f.name, head.ty, target, route, nested.selections,
        nested.shape, head.maximum, id,
                                 ArgumentValues(head.arguments, vars));
    }
    PartialAppend(w, vars, entityName, p, Count(nested.state), s, wrapped.1);
  }

  lemma RelationshipFieldDiscloses(
    cap: Capability, w: World, vars: Variables, entityName: string, name: string, ty: Type, target: string,
    route: Route, sub: seq<Selection>, shape: Shape, n: u32, id: nat, arguments: map<string, Json>)
    requires SoundSchema(cap) && ConformingWorld(cap.types, w) && w.typeOf(id) == entityName && target in cap.catalog
    requires ObjectField(cap.types, entityName, name).Some? && ObjectField(cap.types, entityName, name).value.ty == ty
    requires SpecificRoute(cap.types, target, ty, cap.limits.maximumDepth) == Some(route)
    requires NodeDiscloses(w, vars, target, sub, shape) && RouteBounded(w, w.resolve(id, name, arguments), route, n)
    ensures Discloses(Complete(w, vars, w.resolve(id, name, arguments), WrapRoute(route, sub, shape, n).0),
      WrapRoute(route, sub, shape, n).1)
  {
    SpecificRouteIsShortest(cap.types, target, ty, cap.limits.maximumDepth);
    BaseIsObject(cap.types, ty, route, target);
    assert ObjectField(cap.types, entityName, name).value in cap.types[entityName].fields;
    assert Fits(cap.types, w, w.resolve(id, name, arguments), ty);
    FieldWrapDiscloses(cap.types, w, vars, ty, route, target, sub, shape, n, w.resolve(id, name, arguments));
  }

  lemma {:induction false} RelationshipsDisclose(
    cap: Capability, w: World, vars: Variables, entityName: string, fields: seq<Field>, plan: Plan,
    ancestry: seq<string>, depth: nat, before: State, p: Partial, q: Partial)
    requires SoundSchema(cap) && ConformingWorld(cap.types, w) && HonoursBounds(cap, w)
    requires entityName in cap.catalog && depth < cap.limits.maximumDepth
    requires Lifted(before, p.state, p.rendered)
    requires forall f :: f in fields ==>
               f in cap.catalog[entityName].fields && (f.relationship.Some? ==> f.name !in p.shapes)
    requires forall i, j :: 0 <= i < j < |fields| ==> fields[i].name != fields[j].name
    requires PartialDiscloses(w, vars, entityName, p)
    requires CompileRelationships(cap, entityName, fields, plan, ancestry, depth, p) == Ok(q)
      && Submap(q.state.variables, vars)
    ensures PartialDiscloses(w, vars, entityName, q)
    decreases cap.limits.maximumDepth - depth, 1, |fields|
  {
    hide SoundSchema, ConformingWorld, HonoursBounds, PartialDiscloses, CompileEntity, CompileRelationshipHead;
    if fields != [] {
      var f, rest := fields[0], fields[1..];
      assert forall i :: 0 <= i < |rest| ==> rest[i] == fields[i + 1];
      if f.name !in plan.relationships {
        RelationshipsDisclose(cap, w, vars, entityName, rest, plan, ancestry, depth, before, p, q);
      } else {
        var child := plan.relationships[f.name];
        var m := CompileRelationship(cap, entityName, f, child, ancestry, depth, p).value;
        RelationshipLifts(cap, entityName, f, child, ancestry, depth, before, p);
        RelationshipAddsOne(cap, entityName, f, child, ancestry, depth, p);
        RelationshipsLift(cap, entityName, rest, plan, ancestry, depth, before, m);
        RelationshipDiscloses(cap, w, vars, entityName, f, child, ancestry, depth, p, m);
        RelationshipsDisclose(cap, w, vars, entityName, rest, plan, ancestry, depth, before, m, q);
      }
    }
  }

  lemma RelationshipAddsOne(
    cap: Capability, entityName: string, f: Field, plan: Plan, ancestry: seq<string>, depth: nat, p: Partial)
    requires depth < cap.limits.maximumDepth && CompileRelationship(cap, entityName, f, plan, ancestry, depth, p).Ok?
    ensures f.relationship.Some?
    ensures CompileRelationship(cap, entityName, f, plan, ancestry, depth, p).value.shapes.Keys
      == p.shapes.Keys + {f.name}
  {
  }

  lemma {:induction false} EntityDiscloses(
    cap: Capability, w: World, vars: Variables, st: State, entityName: string, plan: Plan, ancestry: seq<string>,
    depth: nat, c: CompiledEntity)
    requires SoundSchema(cap) && ConformingWorld(cap.types, w) && HonoursBounds(cap, w) && Consistent(st)
    requires CompileEntity(cap, st, entityName, plan, ancestry, depth) == Ok(c) && Submap(c.state.variables, vars)
    ensures entityName in cap.catalog
    ensures NodeDiscloses(w, vars, entityName, c.selections, c.shape)
    decreases cap.limits.maximumDepth - depth, 2
  {
    hide SoundSchema, ConformingWorld, HonoursBounds, CompileScalars, CompileRelationships, FieldDiscloses,
      NodeDiscloses,
      Consistent, Submap, DistinctKeys, Lifted, PartialDiscloses;
    var fields := cap.catalog[entityName].fields;
    FieldNamesAreDistinct(cap, entityName);
    var start := Partial(st, [], map[]);
    NothingSelected(w, vars, entityName, st);
    ScalarsLift(cap, entityName, fields, plan, st, start);
    ScalarsDisclose(cap, w, vars, entityName, fields, plan, start);
    var scalars := CompileScalars(cap, entityName, fields, plan, start).value;
    ScalarNamesAreNotRelationships(fields, scalars.shapes);
    var p := CompileRelationships(cap, entityName, fields, plan, ancestry, depth, scalars).value;
    RelationshipsDisclose(cap, w, vars, entityName, fields, plan, ancestry, depth, st, scalars, p);
    PartialIsWhole(w, vars, entityName, p, c.shape);
  }

  lemma PartialIsWhole(w: World, vars: Variables, entityName: string, p: Partial, shape: Shape)
    requires PartialDiscloses(w, vars, entityName, p)
    requires shape.Object? && shape.rule.disposition == Exportable && shape.fields == p.shapes
    ensures NodeDiscloses(w, vars, entityName, p.rendered, shape)
  {
    ObjectDiscloses(w, vars, entityName, p.rendered, shape);
  }

  lemma NothingSelected(w: World, vars: Variables, entityName: string, st: State)
    requires Consistent(st)
    ensures Lifted(st, st, []) && PartialDiscloses(w, vars, entityName, Partial(st, [], map[]))
  {
  }

  lemma FieldNamesAreDistinct(cap: Capability, entityName: string)
    requires SoundSchema(cap) && entityName in cap.catalog
    ensures forall i, j :: 0 <= i < j < |cap.catalog[entityName].fields| ==>
              cap.catalog[entityName].fields[i].name != cap.catalog[entityName].fields[j].name
  {
    assert ValidEntity(cap.catalog[entityName]);
  }

  lemma ScalarNamesAreNotRelationships(fields: seq<Field>, shapes: map<string, Shape>)
    requires forall i, j :: 0 <= i < j < |fields| ==> fields[i].name != fields[j].name
    requires forall k :: k in shapes ==> exists f :: f in fields && f.name == k && f.relationship.None?
    ensures forall f :: f in fields && f.relationship.Some? ==> f.name !in shapes
  {
  }

  // ---------------------------------------------------------------- the whole query

  ghost predicate SoundRoot(cap: Capability) {
    var root := ObjectField(cap.types, cap.queryRoot, cap.fieldName);
    root.Some? ==>
      && (root.value.ty.ListOf? ==> root.value.ty.item.Named?)
      && RouteFrom(cap.types, root.value.ty, cap.route, cap.entity)
  }

  function Respond(w: World, c: Compiled, rootId: nat): Json {
    JObject(ExecuteSelections(w, c.state.variables, rootId, [c.document]))
  }

  lemma {:induction false} TightenDiscloses(v: Json, s: Shape, floor: Option<Classification>)
    requires Discloses(v, s)
    ensures Discloses(v, TightenRoot(s, floor))
  {
  }

  function RootMaximum(plan: Plan): u32 {
    if plan.maximumItems.Some? then plan.maximumItems.value else 1
  }

  /** The stages of a successful compilation, by name. */
  ghost predicate Stages(
    cap: Capability, plan: Plan, c: Compiled, root: SchemaField, inject: bool, st: State, entity: CompiledEntity)
  {
    && CompileTypedPlan(cap, plan) == Ok(c)
    && ObjectField(cap.types, cap.queryRoot, cap.fieldName) == Some(root)
    && RootBoundArgument(cap.types, root, cap.route) == Ok(inject)
    && CompileArguments(cap.types, cap.limits, cap.validators, EMPTY_STATE, root.arguments, plan.arguments,
      plan.maximumItems,
                        HasList(cap.route), inject) == Ok((st, c.document.arguments))
    && CompileEntity(cap, st, cap.entity, plan, [cap.entity], 0) == Ok(entity)
    && entity.state == c.state
    && c.document == Selection(cap.fieldName, cap.fieldName, c.document.arguments,
                               WrapRoute(cap.route, entity.selections, entity.shape, RootMaximum(plan)).0)
    && var result := TightenRoot(WrapRoute(cap.route, entity.selections, entity.shape, RootMaximum(plan)).1,
      cap.resultFloor);
       c.disclosure == Object(ExportableRule(MaximumClassification(result)), map[cap.fieldName := result])
  }

  lemma CompileHasStages(cap: Capability, plan: Plan)
    returns (c: Compiled, root: SchemaField, inject: bool, st: State, entity: CompiledEntity)
    requires CompileTypedPlan(cap, plan).Ok?
    ensures Stages(cap, plan, c, root, inject, st, entity)
    ensures Consistent(st) && Extends(st, c.state)
    ensures ValidShape(c.disclosure, 0)
    ensures var records := MaximumGraphqlRecordCount(c.disclosure);
            records.Some? && records.value <= cap.limits.maximumResultRecords
  {
    c := CompileTypedPlan(cap, plan).value;
    root := ObjectField(cap.types, cap.queryRoot, cap.fieldName).value;
    inject := RootBoundArgument(cap.types, root, cap.route).value;
    st := CompileArguments(cap.types, cap.limits, cap.validators, EMPTY_STATE, root.arguments, plan.arguments,
                           plan.maximumItems, HasList(cap.route), inject).value.0;
    entity := CompileEntity(cap, st, cap.entity, plan, [cap.entity], 0).value;
    assert Consistent(EMPTY_STATE);
    ArgumentsAreLifted(cap.types, cap.limits, cap.validators, EMPTY_STATE, root.arguments, plan.arguments,
      plan.maximumItems,
                       HasList(cap.route), inject, st.variables);
    EntityLifts(cap, st, cap.entity, plan, [cap.entity], 0);
  }

  lemma RootIsHonoured(
    cap: Capability, w: World, rootId: nat, plan: Plan, c: Compiled, root: SchemaField, inject: bool, st: State,
    entity: CompiledEntity)
    requires SoundSchema(cap) && SoundRoot(cap) && HonoursRoot(cap, w, rootId)
    requires Stages(cap, plan, c, root, inject, st, entity) && Extends(st, c.state)
    ensures RouteBounded(w, w.resolve(rootId, cap.fieldName, ArgumentValues(c.document.arguments, c.state.variables)),
      cap.route, RootMaximum(plan))
  {
    hide CompileTypedPlan, CompileEntity, CompileArguments;
    assert Consistent(EMPTY_STATE);
    ArgumentsAreLifted(cap.types, cap.limits, cap.validators, EMPTY_STATE, root.arguments, plan.arguments,
      plan.maximumItems,
                       HasList(cap.route), inject, c.state.variables);
    var arguments := ArgumentValues(c.document.arguments, c.state.variables);
    if HasList(cap.route) {
      assert CarriesLimit(cap.types, root.arguments, arguments, RootMaximum(plan));
    } else {
      ListLeadHasList(root.ty, cap.route);
      assert cap.route[0..] == cap.route;
      NoListIsBounded(cap.types, w, root.ty.Base(), cap.route, cap.entity,
        w.resolve(rootId, cap.fieldName, arguments), RootMaximum(plan));
    }
  }

  lemma RootDiscloses(
    cap: Capability, w: World, rootId: nat, plan: Plan, c: Compiled, root: SchemaField, inject: bool, st: State,
    entity: CompiledEntity)
    requires SoundSchema(cap) && SoundRoot(cap) && ConformingWorld(cap.types, w) && HonoursBounds(cap, w)
    requires HonoursRoot(cap, w, rootId) && w.typeOf(rootId) == cap.queryRoot
    requires Stages(cap, plan, c, root, inject, st, entity) && Consistent(st) && Extends(st, c.state)
    ensures Discloses(Respond(w, c, rootId), c.disclosure)
  {
    hide HonoursBounds, HonoursRoot, CompileEntity, CompileTypedPlan, CompileArguments, NodeDiscloses, RouteBounded,
      Discloses;
    EntityDiscloses(cap, w, c.state.variables, st, cap.entity, plan, [cap.entity], 0, entity);
    RootIsHonoured(cap, w, rootId, plan, c, root, inject, st, entity);
    var d := w.resolve(rootId, cap.fieldName, ArgumentValues(c.document.arguments, c.state.variables));
    assert Fits(cap.types, w, d, root.ty);
    BaseIsObject(cap.types, root.ty, cap.route, cap.entity);
    FieldWrapDiscloses(cap.types, w, c.state.variables, root.ty, cap.route, cap.entity, entity.selections,
      entity.shape, RootMaximum(plan), d);
    var wrapped := WrapRoute(cap.route, entity.selections, entity.shape, RootMaximum(plan));
    TightenDiscloses(Complete(w, c.state.variables, d, wrapped.0), wrapped.1, cap.resultFloor);
    SingletonDiscloses(w, c.state.variables, rootId, c.document, TightenRoot(wrapped.1, cap.resultFloor));
  }

  /**
   * Compiler correctness. Whatever plan is accepted, and whatever conforming data graph answers it within the
   * bounds it was given, the response is disclosed by the compiled shape and stays within the record ceiling.
   */
  lemma CompiledQueryDiscloses(cap: Capability, plan: Plan, w: World, rootId: nat)
    requires SoundSchema(cap) && SoundRoot(cap) && cap.limits.maximumResultRecords > 0
    requires ConformingWorld(cap.types, w) && HonoursBounds(cap, w) && HonoursRoot(cap, w, rootId)
    requires CompileTypedPlan(cap, plan).Ok?
    ensures var c := CompileTypedPlan(cap, plan).value;
            && Discloses(Respond(w, c, rootId), c.disclosure)
            && GraphqlFailure(Respond(w, c, rootId), c.disclosure, cap.limits.maximumResultRecords).None?
  {
    var c, root, inject, st, entity := CompileHasStages(cap, plan);
    RootDiscloses(cap, w, rootId, plan, c, root, inject, st, entity);
    assert Get(Respond(w, c, rootId).entries, cap.fieldName).Some?;
    CompiledCeilingIsNeverExceeded(Respond(w, c, rootId), c.disclosure, cap.limits.maximumResultRecords, cap.fieldName);
  }
}
