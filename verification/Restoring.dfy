/** A compiled document, read back with its variables, is the plan again. */
module Restoring {
  import opened Common
  import opened JsonModel
  import opened Disclosure
  import opened Schema
  import opened Routes
  import opened Execution
  import opened Plans
  import opened Arguments
  import opened Compiler
  import opened Lifting
  import opened Disclosing

  /** How one relationship of a plan appears in the document. */
  datatype Link = Link(field: Field, selections: seq<Selection>, shape: Shape, route: Route, bound: u32)

  /** The resolver receives the plan's own arguments, and the list bound of the disclosure where it is injected. */
  ghost predicate ArgumentsRestored(
    types: Types, inputs: seq<SchemaInput>, f: Field, plan: Plan, delivered: map<string, Json>, bound: u32)
    requires f.relationship.Some?
  {
    match f.relationship.value.bound
    case Some(Pageable(_)) =>
      plan.maximumItems == Some(bound) && InjectsOnly(types, inputs, plan.arguments, delivered, bound)
    case Some(ServerFixed(maximumItems)) =>
      plan.maximumItems.None? && bound == maximumItems && delivered == plan.arguments
    case None => plan.maximumItems.None? && bound == 1 && delivered == plan.arguments
  }

  ghost predicate Links(
    cap: Capability, entityName: string, name: string, plan: Plan, s: Selection, d: Shape, vars: Variables, link: Link)
    decreases plan, 1
  {
    var actual := ObjectField(cap.types, entityName, name);
    && s.key == s.name == name == link.field.name
    && entityName in cap.catalog && link.field in cap.catalog[entityName].fields && Traversable(link.field)
    && actual.Some?
    && ArgumentsRestored(cap.types, actual.value.arguments, link.field, plan, ArgumentValues(s.arguments, vars),
      link.bound)
    && SpecificRoute(cap.types, link.field.relationship.value.target, actual.value.ty, cap.limits.maximumDepth)
      == Some(link.route)
    && (s.sub, d) == WrapRoute(link.route, link.selections, link.shape, link.bound)
    && link.shape.Object?
    && Mirrors(cap, link.field.relationship.value.target, plan, link.selections, link.shape.fields, vars)
  }

  ghost predicate Linked(
    cap: Capability, entityName: string, name: string, plan: Plan, s: Selection, d: Shape, vars: Variables)
    decreases plan, 2
  {
    exists link: Link :: Links(cap, entityName, name, plan, s, d, vars, link)
  }

  /** A selection set and its field shapes are the image of a plan: everything it asks for, and nothing else. */
  ghost predicate Mirrors(
    cap: Capability, entityName: string, plan: Plan, selections: seq<Selection>, shapes: map<string, Shape>,
    vars: Variables)
    decreases plan, 0
  {
    && (forall k :: k in plan.fields ==> Selection(k, k, [], []) in selections && k in shapes && shapes[k].Scalar?)
    && (forall k :: k in plan.relationships ==>
          k in shapes && exists s :: s in selections
                           && Linked(cap, entityName, k, plan.relationships[k], s, shapes[k], vars))
    && (forall s :: s in selections ==> s.key in plan.fields || s.key in plan.relationships)
    && DistinctKeys(selections)
  }

  // ---------------------------------------------------------------- scalars

  /** The keys rendered so far are those of the shapes recorded so far, each once. */
  ghost predicate Keyed(p: Partial) {
    DistinctKeys(p.rendered) && forall k :: k in p.shapes <==> exists s :: s in p.rendered && s.key == k
  }

  lemma KeyedAppend(p: Partial, state: State, s: Selection, shape: Shape)
    requires Keyed(p) && s.key !in p.shapes
    ensures Keyed(Partial(state, p.rendered + [s], p.shapes[s.key := shape]))
  {
    var all, shapes := p.rendered + [s], p.shapes[s.key := shape];
    forall k | k in shapes ensures exists x :: x in all && x.key == k {
      if k != s.key {
        var x :| x in p.rendered && x.key == k;
        assert x in all;
      } else {
        assert s in all;
      }
    }
    forall i, j | 0 <= i < j < |all| ensures all[i].key != all[j].key {
      assert all[i] in p.rendered;
    }
    assert forall x :: x in all ==> x in p.rendered || x == s;
  }

  ghost predicate HoldsScalar(p: Partial, name: string) {
    Selection(name, name, [], []) in p.rendered && name in p.shapes && p.shapes[name].Scalar?
  }

  lemma {:induction false} ScalarsMirror(
    cap: Capability, entityName: string, fields: seq<Field>, plan: Plan, p: Partial, q: Partial)
    requires forall i, j :: 0 <= i < j < |fields| ==> fields[i].name != fields[j].name
    requires Keyed(p) && forall f :: f in fields ==> f.name !in p.shapes
    requires CompileScalars(cap, entityName, fields, plan, p) == Ok(q)
    ensures Keyed(q)
    ensures forall f :: f in fields && f.name in plan.fields ==> HoldsScalar(q, f.name) && f.relationship.None?
    ensures forall k :: HoldsScalar(p, k) ==> HoldsScalar(q, k)
    ensures forall s :: s in q.rendered ==>
              s in p.rendered
                || (s.key in plan.fields && exists f :: f in fields && f.name == s.key && f.relationship.None?)
    decreases |fields|
  {
    if fields != [] {
      var f, rest := fields[0], fields[1..];
      assert forall g :: g in fields <==> g == f || g in rest;
      assert forall i :: 0 <= i < |rest| ==> rest[i] == fields[i + 1];
      if f.name !in plan.fields {
        ScalarsMirror(cap, entityName, rest, plan, p, q);
      } else {
        var m := AddScalar(p, f);
        KeyedAppend(p, Count(p.state), Selection(f.name, f.name, [], []), Scalar(ExportableRule(f.classification)));
        assert HoldsScalar(m, f.name);
        assert forall k :: HoldsScalar(p, k) ==> HoldsScalar(m, k);
        ScalarsMirror(cap, entityName, rest, plan, m, q);
      }
    }
  }

  // ---------------------------------------------------------------- relationships

  lemma HeadRestores(
    cap: Capability, entityName: string, f: Field, plan: Plan, ancestry: seq<string>, st: State, head: Head,
    vars: Variables)
    requires Consistent(st) && CompileRelationshipHead(cap, entityName, f, plan, ancestry, st) == Ok(head)
    requires Submap(head.state.variables, vars)
    ensures ObjectField(cap.types, entityName, f.name).Some?
    ensures ObjectField(cap.types, entityName, f.name).value.ty == head.ty
    ensures ArgumentsRestored(cap.types, ObjectField(cap.types, entityName, f.name).value.arguments, f, plan,
                              ArgumentValues(head.arguments, vars), head.maximum)
  {
    hide CompileArguments, ArgumentValues, InjectsOnly;
    var inputs := ObjectField(cap.types, entityName, f.name).value.arguments;
    var pageable := ModelMaySelectMaximum(CollectionExecution(f.relationship.value).value);
    ArgumentsAreLifted(cap.types, cap.limits, cap.validators, st, inputs, plan.arguments, plan.maximumItems, pageable,
      pageable, vars);
  }

  ghost predicate HoldsLink(
    cap: Capability, entityName: string, name: string, plan: Plan, p: Partial, vars: Variables)
  {
    name in p.shapes && exists s :: s in p.rendered && Linked(cap, entityName, name, plan, s, p.shapes[name], vars)
  }

  /** `q` is `p` with one more field. */
  ghost predicate AddsField(p: Partial, q: Partial, name: string) {
    && q.rendered != [] && q.rendered == p.rendered + [q.rendered[|q.rendered| - 1]]
      && q.rendered[|q.rendered| - 1].key == name
    && name in q.shapes && q.shapes == p.shapes[name := q.shapes[name]]
  }

  lemma {:induction false} RelationshipMirrors(
    cap: Capability, entityName: string, f: Field, plan: Plan, ancestry: seq<string>, depth: nat, p: Partial,
    q: Partial, vars: Variables)
    requires ValidCatalog(cap.catalog) && Consistent(p.state) && depth < cap.limits.maximumDepth
    requires entityName in cap.catalog && f in cap.catalog[entityName].fields && f.name !in p.shapes && Keyed(p)
    requires CompileRelationship(cap, entityName, f, plan, ancestry, depth, p) == Ok(q)
      && Submap(q.state.variables, vars)
    ensures Keyed(q) && HoldsLink(cap, entityName, f.name, plan, q, vars)
    ensures AddsField(p, q, f.name)
    decreases cap.limits.maximumDepth - depth, 0
  {
    hide Keyed, CompileEntity, Consistent, Mirrors, ArgumentsRestored, ValidCatalog, SpecificRoute, WrapRoute;
    var head := CompileRelationshipHead(cap, entityName, f, plan, ancestry, p.state).value;
    var target := f.relationship.value.target;
    HeadLifts(cap, entityName, f, plan, ancestry, p.state);
    EntityLifts(cap, head.state, target, plan, ancestry + [target], depth + 1);
    var nested := CompileEntity(cap, head.state, target, plan, ancestry + [target], depth + 1).value;
    EntityMirrors(cap, head.state, target, plan, ancestry + [target], depth + 1, nested, vars);
    HeadRestores(cap, entityName, f, plan, ancestry, p.state, head, vars);
    var route := SpecificRoute(cap.types, target, head.ty, cap.limits.maximumDepth).value;
    var wrapped := WrapRoute(route, nested.selections, nested.shape, head.maximum);
    var s := Selection(f.name, f.name, head.arguments, wrapped.0);
    var link := Link(f, nested.selections, nested.shape, route, head.maximum);
    assert Links(cap, entityName, f.name, plan, s, wrapped.1, vars, link);
    KeyedAppend(p, Count(nested.state), s, wrapped.1);
    assert s in q.rendered && q.shapes[f.name] == wrapped.1;
    assert q.rendered == p.rendered + [s] && q.shapes == p.shapes[f.name := wrapped.1];
  }

  /** What is held for one name is untouched when another is added. */
  lemma OthersAreKept(cap: Capability, entityName: string, p: Partial, q: Partial, name: string, vars: Variables)
    requires AddsField(p, q, name) && name !in p.shapes
    ensures forall k :: HoldsScalar(p, k) ==> HoldsScalar(q, k)
    ensures forall k, child :: HoldsLink(cap, entityName, k, child, p, vars) ==>
              HoldsLink(cap, entityName, k, child, q, vars)
  {
    hide Linked;
    forall k, child | HoldsLink(cap, entityName, k, child, p, vars)
      ensures HoldsLink(cap, entityName, k, child, q, vars) {
      var x :| x in p.rendered && Linked(cap, entityName, k, child, x, p.shapes[k], vars);
      assert x in q.rendered;
    }
  }

  lemma {:induction false} RelationshipsMirror(
    cap: Capability, entityName: string, fields: seq<Field>, plan: Plan, ancestry: seq<string>, depth: nat,
    before: State, p: Partial, q: Partial, vars: Variables)
    requires ValidCatalog(cap.catalog) && depth < cap.limits.maximumDepth && entityName in cap.catalog
    requires Lifted(before, p.state, p.rendered) && Keyed(p)
    requires forall f :: f in fields ==>
               f in cap.catalog[entityName].fields && (f.relationship.Some? ==> f.name !in p.shapes)
    requires forall i, j :: 0 <= i < j < |fields| ==> fields[i].name != fields[j].name
    requires CompileRelationships(cap, entityName, fields, plan, ancestry, depth, p) == Ok(q)
      && Submap(q.state.variables, vars)
    ensures Keyed(q)
    ensures forall f :: f in fields && f.name in plan.relationships ==>
              HoldsLink(cap, entityName, f.name, plan.relationships[f.name], q, vars)
    ensures forall k :: HoldsScalar(p, k) ==> HoldsScalar(q, k)
    ensures forall k, child :: HoldsLink(cap, entityName, k, child, p, vars) ==>
              HoldsLink(cap, entityName, k, child, q, vars)
    ensures forall s :: s in q.rendered ==> s in p.rendered || s.key in plan.relationships
    decreases cap.limits.maximumDepth - depth, 1, |fields|
  {
    hide ValidCatalog, Keyed, HoldsScalar, HoldsLink, CompileEntity, CompileRelationship, CompileRelationshipHead;
    if fields != [] {
      var f, rest := fields[0], fields[1..];
      assert forall g :: g in fields <==> g == f || g in rest;
      assert forall i :: 0 <= i < |rest| ==> rest[i] == fields[i + 1];
      if f.name !in plan.relationships {
        RelationshipsMirror(cap, entityName, rest, plan, ancestry, depth, before, p, q, vars);
      } else {
        var child := plan.relationships[f.name];
        var m := CompileRelationship(cap, entityName, f, child, ancestry, depth, p).value;
        RelationshipLifts(cap, entityName, f, child, ancestry, depth, before, p);
        RelationshipAddsOne(cap, entityName, f, child, ancestry, depth, p);
        RelationshipsLift(cap, entityName, rest, plan, ancestry, depth, before, m);
        RelationshipMirrors(cap, entityName, f, child, ancestry, depth, p, m, vars);
        OthersAreKept(cap, entityName, p, m, f.name, vars);
        RelationshipsMirror(cap, entityName, rest, plan, ancestry, depth, before, m, q, vars);
      }
    }
  }

  // ---------------------------------------------------------------- entities and whole plans

  lemma {:induction false} EntityMirrors(
    cap: Capability, st: State, entityName: string, plan: Plan, ancestry: seq<string>, depth: nat, c: CompiledEntity,
    vars: Variables)
    requires ValidCatalog(cap.catalog) && Consistent(st)
    requires CompileEntity(cap, st, entityName, plan, ancestry, depth) == Ok(c) && Submap(c.state.variables, vars)
    ensures c.shape.Object? && Mirrors(cap, entityName, plan, c.selections, c.shape.fields, vars)
    decreases cap.limits.maximumDepth - depth, 2
  {
    hide ValidCatalog, Consistent, Submap, Lifted, CompileScalars, CompileRelationships, Keyed, HoldsScalar,
      HoldsLink, Mirrors;
    var fields := cap.catalog[entityName].fields;
    var start := Partial(st, [], map[]);
    DistinctFields(cap, entityName);
    NothingRendered(st);
    ScalarsLift(cap, entityName, fields, plan, st, start);
    var scalars := CompileScalars(cap, entityName, fields, plan, start).value;
    ScalarsMirror(cap, entityName, fields, plan, start, scalars);
    KeysAreScalars(fields, scalars);
    var p := CompileRelationships(cap, entityName, fields, plan, ancestry, depth, scalars).value;
    RelationshipsMirror(cap, entityName, fields, plan, ancestry, depth, st, scalars, p, vars);
    WholeMirrors(cap, entityName, plan, p, vars);
  }

  lemma DistinctFields(cap: Capability, entityName: string)
    requires ValidCatalog(cap.catalog) && entityName in cap.catalog
    ensures forall i, j :: 0 <= i < j < |cap.catalog[entityName].fields| ==>
              cap.catalog[entityName].fields[i].name != cap.catalog[entityName].fields[j].name
  {
    assert ValidEntity(cap.catalog[entityName]);
  }

  lemma NothingRendered(st: State)
    requires Consistent(st)
    ensures Lifted(st, st, []) && Keyed(Partial(st, [], map[]))
  {
  }

  lemma KeysAreScalars(fields: seq<Field>, p: Partial)
    requires Keyed(p) && forall i, j :: 0 <= i < j < |fields| ==> fields[i].name != fields[j].name
    requires forall s :: s in p.rendered ==> exists f :: f in fields && f.name == s.key && f.relationship.None?
    ensures forall f :: f in fields && f.relationship.Some? ==> f.name !in p.shapes
  {
  }

  lemma WholeMirrors(cap: Capability, entityName: string, plan: Plan, p: Partial, vars: Variables)
    requires Keyed(p)
    requires forall k :: k in plan.fields ==> HoldsScalar(p, k)
    requires forall k :: k in plan.relationships ==> HoldsLink(cap, entityName, k, plan.relationships[k], p, vars)
    requires forall s :: s in p.rendered ==> s.key in plan.fields || s.key in plan.relationships
    ensures Mirrors(cap, entityName, plan, p.rendered, p.shapes, vars)
  {
    hide Linked;
  }

  /**
   * Variable lifting preserves meaning. Substituting the compiled values back into the document gives the plan:
   * its fields, its relationships and its arguments at every level, plus exactly the injected page bounds, each
   * of which is also the bound of the disclosed list.
   */
  lemma DocumentMirrorsPlan(cap: Capability, plan: Plan)
    returns (root: SchemaField, inject: bool, selections: seq<Selection>, shape: Shape)
    requires ValidCatalog(cap.catalog) && CompileTypedPlan(cap, plan).Ok?
    ensures var c := CompileTypedPlan(cap, plan).value;
      && ObjectField(cap.types, cap.queryRoot, cap.fieldName) == Some(root)
      && c.document.key == c.document.name == cap.fieldName
      && Delivers(cap.types, root.arguments, plan.arguments, plan.maximumItems, inject,
                  ArgumentValues(c.document.arguments, c.state.variables))
      && (HasList(cap.route) <==> plan.maximumItems.Some?) && (HasList(cap.route) ==> inject)
      && c.document.sub == WrapRoute(cap.route, selections, shape, RootMaximum(plan)).0
      && c.disclosure.Object? && cap.fieldName in c.disclosure.fields
      && c.disclosure.fields[cap.fieldName]
        == TightenRoot(WrapRoute(cap.route, selections, shape, RootMaximum(plan)).1, cap.resultFloor)
      && shape.Object? && Mirrors(cap, cap.entity, plan, selections, shape.fields, c.state.variables)
  {
    hide CompileTypedPlan, CompileEntity, CompileArguments, ValidShape, Mirrors, Delivers, WrapRoute, ValidCatalog;
    var c, field, injected, st, entity := CompileHasStages(cap, plan);
    EntityMirrors(cap, st, cap.entity, plan, [cap.entity], 0, entity, c.state.variables);
    assert Consistent(EMPTY_STATE);
    ArgumentsAreLifted(cap.types, cap.limits, cap.validators, EMPTY_STATE, field.arguments, plan.arguments,
      plan.maximumItems,
                       HasList(cap.route), injected, c.state.variables);
    root, inject, selections, shape := field, injected, entity.selections, entity.shape;
  }
}
