/** Exactly which plans have a selection that compiles. */
module Acceptance {
  import opened Schema
  import opened Routes
  import opened Plans
  import opened Arguments
  import opened Compiler
  import opened Disclosing
  import opened Heads
  import opened Pruning
  import opened Advertised

  /** Every relationship the plan names, at every depth, has a head in order. */
  ghost predicate HeadsOk(cap: Capability, entityName: string, plan: Plan)
    decreases plan
  {
    && entityName in cap.catalog
    && forall k :: k in plan.relationships ==>
         exists f :: f in cap.catalog[entityName].fields && f.name == k && f.relationship.Some?
                     && HeadOk(cap, entityName, f, plan.relationships[k])
                     && HeadsOk(cap, f.relationship.value.target, plan.relationships[k])
  }

  lemma PathOkIsOpen(
    catalog: Catalog, maximumDepth: nat, entityName: string, p: Path, depth: nat, ancestry: seq<string>)
    requires ValidCatalog(catalog) && PathOk(catalog, maximumDepth, entityName, p, depth, ancestry)
    ensures Open(catalog, entityName)
  {
    assert ValidEntity(catalog[entityName]);
    if |p| > 1 {
      var f :| f in catalog[entityName].fields && f.name == p[0]
        && StepOk(catalog, maximumDepth, f, p[1..], depth, ancestry);
    }
  }

  // ---------------------------------------------------------------- success does not depend on the state

  lemma {:induction false} ScalarsOkIff(cap: Capability, entityName: string, fields: seq<Field>, plan: Plan, p: Partial)
    ensures var r := CompileScalars(cap, entityName, fields, plan, p);
            && (r.Ok? <==> forall f :: f in fields && f.name in plan.fields ==>
                             SelectableScalar(f) && ObjectField(cap.types, entityName, f.name).Some?)
            && (r.Ok? ==> |p.rendered| <= |r.value.rendered|)
            && (r.Ok? ==> (|p.rendered| == |r.value.rendered| <==> forall f :: f in fields ==> f.name !in plan.fields))
    decreases |fields|
  {
    if fields != [] {
      assert fields == [fields[0]] + fields[1..];
      ScalarsOkIff(cap, entityName, fields[1..], plan, p);
      ScalarsOkIff(cap, entityName, fields[1..], plan, AddScalar(p, fields[0]));
    }
  }

  ghost predicate RelationshipAccepted(
    cap: Capability, entityName: string, f: Field, plan: Plan, ancestry: seq<string>, depth: nat)
  {
    && f.relationship.Some? && HeadOk(cap, entityName, f, plan) && f.relationship.value.target !in ancestry
    && CompileEntity(cap, EMPTY_STATE, f.relationship.value.target, plan, ancestry + [f.relationship.value.target],
      depth + 1).Ok?
  }

  lemma {:induction false} RelationshipOkIff(
    cap: Capability, entityName: string, f: Field, plan: Plan, ancestry: seq<string>, depth: nat, p: Partial)
    requires WellFormedTypes(cap.types) && depth < cap.limits.maximumDepth
    ensures var r := CompileRelationship(cap, entityName, f, plan, ancestry, depth, p);
            && (r.Ok? <==> RelationshipAccepted(cap, entityName, f, plan, ancestry, depth))
            && (r.Ok? ==> |r.value.rendered| == |p.rendered| + 1)
    decreases cap.limits.maximumDepth - depth, 0
  {
    hide HeadOk, SpecificRoute;
    HeadOkIff(cap, entityName, f, plan, ancestry, p.state);
    HeadIsTraversable(cap, entityName, f, plan);
    var head := CompileRelationshipHead(cap, entityName, f, plan, ancestry, p.state);
    if head.Ok? {
      var target := f.relationship.value.target;
      EntityIsStateless(cap, head.value.state, EMPTY_STATE, target, plan, ancestry + [target], depth + 1);
    }
  }

  lemma HeadIsTraversable(cap: Capability, entityName: string, f: Field, plan: Plan)
    ensures HeadOk(cap, entityName, f, plan) ==> Traversable(f)
  {
  }

  lemma {:induction false} RelationshipsOkIff(
    cap: Capability, entityName: string, fields: seq<Field>, plan: Plan, ancestry: seq<string>, depth: nat, p: Partial)
    requires WellFormedTypes(cap.types) && depth < cap.limits.maximumDepth
    ensures var r := CompileRelationships(cap, entityName, fields, plan, ancestry, depth, p);
            && (r.Ok? <==> forall f :: f in fields && f.name in plan.relationships ==>
                             RelationshipAccepted(cap, entityName, f, plan.relationships[f.name], ancestry, depth))
            && (r.Ok? ==> |p.rendered| <= |r.value.rendered|)
            && (r.Ok? ==> (|p.rendered| == |r.value.rendered| <==> forall f :: f in fields ==>
                                                                     f.name !in plan.relationships))
    decreases cap.limits.maximumDepth - depth, 1, |fields|
  {
    hide CompileRelationship, RelationshipAccepted;
    if fields != [] {
      var f := fields[0];
      assert fields == [f] + fields[1..];
      if f.name !in plan.relationships {
        RelationshipsOkIff(cap, entityName, fields[1..], plan, ancestry, depth, p);
      } else {
        RelationshipOkIff(cap, entityName, f, plan.relationships[f.name], ancestry, depth, p);
        var one := CompileRelationship(cap, entityName, f, plan.relationships[f.name], ancestry, depth, p);
        if one.Ok? {
          RelationshipsOkIff(cap, entityName, fields[1..], plan, ancestry, depth, one.value);
        }
      }
    }
  }

  /** What an accepted selection set needs at its own level. */
  ghost predicate LevelAccepted(cap: Capability, entityName: string, plan: Plan, ancestry: seq<string>, depth: nat) {
    && depth < cap.limits.maximumDepth && entityName in cap.catalog
    && (forall k :: k in plan.fields ==> plan.fields[k] && HasField(cap.catalog[entityName].fields, k))
    && (forall k :: k in plan.relationships ==> HasField(cap.catalog[entityName].fields, k))
    && (plan.fields != map[] || plan.relationships != map[])
    && (forall f :: f in cap.catalog[entityName].fields && f.name in plan.fields ==>
          SelectableScalar(f) && ObjectField(cap.types, entityName, f.name).Some?)
    && (forall f :: f in cap.catalog[entityName].fields && f.name in plan.relationships ==>
          RelationshipAccepted(cap, entityName, f, plan.relationships[f.name], ancestry, depth))
  }

  lemma {:induction false} EntityOkIff(
    cap: Capability, st: State, entityName: string, plan: Plan, ancestry: seq<string>, depth: nat)
    requires WellFormedTypes(cap.types)
    ensures CompileEntity(cap, st, entityName, plan, ancestry, depth).Ok? <==>
      LevelAccepted(cap, entityName, plan, ancestry, depth)
    decreases cap.limits.maximumDepth - depth, 2
  {
    hide RelationshipAccepted, CompileScalars, CompileRelationships;
    if depth < cap.limits.maximumDepth && entityName in cap.catalog {
      var fields := cap.catalog[entityName].fields;
      ScalarsOkIff(cap, entityName, fields, plan, Partial(st, [], map[]));
      var scalars := CompileScalars(cap, entityName, fields, plan, Partial(st, [], map[]));
      NamedFields(fields, plan);
      if scalars.Ok? {
        RelationshipsOkIff(cap, entityName, fields, plan, ancestry, depth, scalars.value);
      }
    }
  }

  lemma NamedFields(fields: seq<Field>, plan: Plan)
    ensures (forall k :: k in plan.fields ==> HasField(fields, k)) ==>
              (plan.fields == map[] <==> forall f :: f in fields ==> f.name !in plan.fields)
    ensures (forall k :: k in plan.relationships ==> HasField(fields, k)) ==>
              (plan.relationships == map[] <==> forall f :: f in fields ==> f.name !in plan.relationships)
  {
    if k :| k in plan.fields && HasField(fields, k) {
      var i :| 0 <= i < |fields| && fields[i].name == k;
      assert fields[i] in fields;
    }
    if k :| k in plan.relationships && HasField(fields, k) {
      var i :| 0 <= i < |fields| && fields[i].name == k;
      assert fields[i] in fields;
    }
  }

  lemma {:induction false} EntityIsStateless(
    cap: Capability, a: State, b: State, entityName: string, plan: Plan, ancestry: seq<string>, depth: nat)
    requires WellFormedTypes(cap.types)
    ensures CompileEntity(cap, a, entityName, plan, ancestry, depth).Ok? <==>
      CompileEntity(cap, b, entityName, plan, ancestry, depth).Ok?
    decreases cap.limits.maximumDepth - depth, 3
  {
    EntityOkIff(cap, a, entityName, plan, ancestry, depth);
    EntityOkIff(cap, b, entityName, plan, ancestry, depth);
  }

  // ---------------------------------------------------------------- the characterisation

  ghost predicate SelectsOnlyPaths(cap: Capability, entityName: string, plan: Plan, ancestry: seq<string>, depth: nat) {
    forall p :: Selects(plan, p) ==> PathOk(cap.catalog, cap.limits.maximumDepth, entityName, p, depth, ancestry)
  }

  ghost predicate Acceptable(cap: Capability, entityName: string, plan: Plan, ancestry: seq<string>, depth: nat) {
    Shaped(plan) && SelectsOnlyPaths(cap, entityName, plan, ancestry, depth) && HeadsOk(cap, entityName, plan)
  }

  lemma SameField(catalog: Catalog, entityName: string, f: Field, g: Field)
    requires ValidCatalog(catalog) && entityName in catalog
    requires f in catalog[entityName].fields && g in catalog[entityName].fields && f.name == g.name
    ensures f == g
  {
    assert ValidEntity(catalog[entityName]);
  }

  /** Under an acceptable plan, a selected relationship is traversable and its own plan is acceptable. */
  lemma AcceptableChild(cap: Capability, entityName: string, plan: Plan, ancestry: seq<string>, depth: nat, f: Field)
    requires ValidCatalog(cap.catalog) && entityName in cap.catalog && f in cap.catalog[entityName].fields
    requires f.name in plan.relationships && Acceptable(cap, entityName, plan, ancestry, depth)
    ensures depth + 1 < cap.limits.maximumDepth && Traversable(f) && f.relationship.value.target !in ancestry
    ensures HeadOk(cap, entityName, f, plan.relationships[f.name])
    ensures var target := f.relationship.value.target;
            Acceptable(cap, target, plan.relationships[f.name], ancestry + [target], depth + 1)
  {
    hide HeadOk, PathOk, ValidCatalog;
    var child := plan.relationships[f.name];
    forall q | Selects(child, q)
      ensures depth + 1 < cap.limits.maximumDepth && StepOk(cap.catalog, cap.limits.maximumDepth, f, q, depth, ancestry)
    {
      var p := [f.name] + q;
      assert p[1..] == q && Selects(plan, p);
      StepOfPath(cap.catalog, cap.limits.maximumDepth, entityName, f, p, depth, ancestry);
    }
    var q := ShapedSelects(child);
    var g :| g in cap.catalog[entityName].fields && g.name == f.name && g.relationship.Some?
      && HeadOk(cap, entityName, g, child)
             && HeadsOk(cap, g.relationship.value.target, child);
    SameField(cap.catalog, entityName, f, g);
  }

  lemma StepOfPath(
    catalog: Catalog, maximumDepth: nat, entityName: string, f: Field, p: Path, depth: nat, ancestry: seq<string>)
    requires ValidCatalog(catalog) && entityName in catalog && f in catalog[entityName].fields
    requires |p| > 1 && p[0] == f.name && PathOk(catalog, maximumDepth, entityName, p, depth, ancestry)
    ensures depth + 1 < maximumDepth && StepOk(catalog, maximumDepth, f, p[1..], depth, ancestry)
  {
    var g :| g in catalog[entityName].fields && g.name == p[0]
      && StepOk(catalog, maximumDepth, g, p[1..], depth, ancestry);
    SameField(catalog, entityName, f, g);
  }

  lemma {:induction false} AcceptableIsAccepted(
    cap: Capability, entityName: string, plan: Plan, ancestry: seq<string>, depth: nat)
    requires WellFormedTypes(cap.types) && ValidCatalog(cap.catalog) && ValidatedEntities(cap.types, cap.catalog)
    requires entityName in cap.catalog && depth < cap.limits.maximumDepth
      && Acceptable(cap, entityName, plan, ancestry, depth)
    ensures CompileEntity(cap, EMPTY_STATE, entityName, plan, ancestry, depth).Ok?
    decreases cap.limits.maximumDepth - depth
  {
    hide CompileEntity, HeadOk, ValidCatalog, HeadsOk;
    var fields := cap.catalog[entityName].fields;
    forall f | f in fields && f.name in plan.relationships
      ensures RelationshipAccepted(cap, entityName, f, plan.relationships[f.name], ancestry, depth)
    {
      AcceptableChild(cap, entityName, plan, ancestry, depth, f);
      var target := f.relationship.value.target;
      var q := ShapedSelects(plan.relationships[f.name]);
      assert PathOk(cap.catalog, cap.limits.maximumDepth, target, q, depth + 1, ancestry + [target]);
      AcceptableIsAccepted(cap, target, plan.relationships[f.name], ancestry + [target], depth + 1);
    }
    AcceptableScalars(cap, entityName, plan, ancestry, depth);
    EntityOkIff(cap, EMPTY_STATE, entityName, plan, ancestry, depth);
  }

  lemma AcceptableScalars(cap: Capability, entityName: string, plan: Plan, ancestry: seq<string>, depth: nat)
    requires ValidCatalog(cap.catalog) && ValidatedEntities(cap.types, cap.catalog)
    requires entityName in cap.catalog && Acceptable(cap, entityName, plan, ancestry, depth)
    ensures forall k :: k in plan.fields ==> plan.fields[k] && HasField(cap.catalog[entityName].fields, k)
    ensures forall k :: k in plan.relationships ==> HasField(cap.catalog[entityName].fields, k)
    ensures forall f :: f in cap.catalog[entityName].fields && f.name in plan.fields ==>
              SelectableScalar(f) && ObjectField(cap.types, entityName, f.name).Some?
  {
    hide HeadOk;
    var fields := cap.catalog[entityName].fields;
    forall k | k in plan.fields
      ensures HasField(fields, k) && exists g :: g in fields && g.name == k && SelectableScalar(g)
    {
      assert Selects(plan, [k]);
      assert PathOk(cap.catalog, cap.limits.maximumDepth, entityName, [k], depth, ancestry);
    }
    forall f | f in fields && f.name in plan.fields
      ensures SelectableScalar(f) && ObjectField(cap.types, entityName, f.name).Some? {
      var g :| g in fields && g.name == f.name && SelectableScalar(g);
      SameField(cap.catalog, entityName, f, g);
      assert ValidatedEntity(cap.types, entityName, cap.catalog[entityName]);
    }
  }

  lemma {:induction false} AcceptedIsAcceptable(
    cap: Capability, entityName: string, plan: Plan, ancestry: seq<string>, depth: nat)
    requires WellFormedTypes(cap.types) && ValidCatalog(cap.catalog)
    requires CompileEntity(cap, EMPTY_STATE, entityName, plan, ancestry, depth).Ok?
    ensures Acceptable(cap, entityName, plan, ancestry, depth)
    decreases cap.limits.maximumDepth - depth
  {
    hide CompileEntity, HeadOk, HeadsOk, ValidCatalog, Acceptable, LevelAccepted, ChildAcceptable;
    EntityOkIff(cap, EMPTY_STATE, entityName, plan, ancestry, depth);
    forall k | k in plan.relationships
      ensures ChildAcceptable(cap, entityName, plan, ancestry, depth, k)
    {
      AcceptedChild(cap, entityName, plan, ancestry, depth, k);
    }
    LevelIsAcceptable(cap, entityName, plan, ancestry, depth);
  }

  lemma LevelIsAcceptable(cap: Capability, entityName: string, plan: Plan, ancestry: seq<string>, depth: nat)
    requires LevelAccepted(cap, entityName, plan, ancestry, depth)
    requires forall k :: k in plan.relationships ==> ChildAcceptable(cap, entityName, plan, ancestry, depth, k)
    ensures Acceptable(cap, entityName, plan, ancestry, depth)
  {
    hide LevelAccepted, ChildAcceptable, PathOk, HeadOk, Selects, Shaped, StepOk;
    forall p | Selects(plan, p) ensures PathOk(cap.catalog, cap.limits.maximumDepth, entityName, p, depth, ancestry) {
      SelectedPathIsOk(cap, entityName, plan, ancestry, depth, p);
    }
    LevelIsShaped(cap, entityName, plan, ancestry, depth);
    HeadsAreOk(cap, entityName, plan, ancestry, depth);
  }

  lemma SelectedPathIsOk(cap: Capability, entityName: string, plan: Plan, ancestry: seq<string>, depth: nat, p: Path)
    requires LevelAccepted(cap, entityName, plan, ancestry, depth) && Selects(plan, p)
    requires forall k :: k in plan.relationships ==> ChildAcceptable(cap, entityName, plan, ancestry, depth, k)
    ensures PathOk(cap.catalog, cap.limits.maximumDepth, entityName, p, depth, ancestry)
  {
    hide HeadOk, HeadsOk, Shaped;
    if |p| == 1 {
      var i :| 0 <= i < |cap.catalog[entityName].fields| && cap.catalog[entityName].fields[i].name == p[0];
      assert cap.catalog[entityName].fields[i] in cap.catalog[entityName].fields;
    } else {
      assert ChildAcceptable(cap, entityName, plan, ancestry, depth, p[0]);
    }
  }

  lemma LevelIsShaped(cap: Capability, entityName: string, plan: Plan, ancestry: seq<string>, depth: nat)
    requires LevelAccepted(cap, entityName, plan, ancestry, depth)
    requires forall k :: k in plan.relationships ==> ChildAcceptable(cap, entityName, plan, ancestry, depth, k)
    ensures Shaped(plan)
  {
  }

  lemma HeadsAreOk(cap: Capability, entityName: string, plan: Plan, ancestry: seq<string>, depth: nat)
    requires LevelAccepted(cap, entityName, plan, ancestry, depth)
    requires forall k :: k in plan.relationships ==> ChildAcceptable(cap, entityName, plan, ancestry, depth, k)
    ensures HeadsOk(cap, entityName, plan)
  {
    hide HeadOk, Shaped, StepOk, Selects, RelationshipAccepted;
    forall k | k in plan.relationships
      ensures exists f :: f in cap.catalog[entityName].fields && f.name == k && f.relationship.Some?
                          && HeadOk(cap, entityName, f, plan.relationships[k])
                          && HeadsOk(cap, f.relationship.value.target, plan.relationships[k])
    {
      assert ChildAcceptable(cap, entityName, plan, ancestry, depth, k);
    }
  }

  ghost predicate ChildAcceptable(
    cap: Capability, entityName: string, plan: Plan, ancestry: seq<string>, depth: nat, k: string)
    requires k in plan.relationships
  {
    && entityName in cap.catalog && depth + 1 < cap.limits.maximumDepth && Shaped(plan.relationships[k])
    && exists f :: f in cap.catalog[entityName].fields && f.name == k && f.relationship.Some?
                   && HeadOk(cap, entityName, f, plan.relationships[k])
                   && HeadsOk(cap, f.relationship.value.target, plan.relationships[k])
                   && forall q :: Selects(plan.relationships[k], q) ==>
                        StepOk(cap.catalog, cap.limits.maximumDepth, f, q, depth, ancestry)
  }

  lemma {:induction false} AcceptedChild(
    cap: Capability, entityName: string, plan: Plan, ancestry: seq<string>, depth: nat, k: string)
    requires WellFormedTypes(cap.types) && ValidCatalog(cap.catalog)
    requires LevelAccepted(cap, entityName, plan, ancestry, depth) && k in plan.relationships
    ensures ChildAcceptable(cap, entityName, plan, ancestry, depth, k)
    decreases cap.limits.maximumDepth - depth, 0
  {
    var fields, child := cap.catalog[entityName].fields, plan.relationships[k];
    var i :| 0 <= i < |fields| && fields[i].name == k;
    var f := fields[i];
    assert f in fields && RelationshipAccepted(cap, entityName, f, child, ancestry, depth);
    var target := f.relationship.value.target;
    EntityOkIff(cap, EMPTY_STATE, target, child, ancestry + [target], depth + 1);
    AcceptedIsAcceptable(cap, target, child, ancestry + [target], depth + 1);
    var q := ShapedSelects(child);
    PathOkIsOpen(cap.catalog, cap.limits.maximumDepth, target, q, depth + 1, ancestry + [target]);
  }

  ghost predicate SelectsAdvertised(cap: Capability, plan: Plan)
    requires cap.entity in cap.catalog
  {
    forall p :: Selects(plan, p) ==> p in Paths(cap.catalog, cap.limits.maximumDepth, cap.entity, 0, [cap.entity])
  }

  lemma AdvertisedAreThePaths(cap: Capability, plan: Plan)
    requires cap.entity in cap.catalog
    ensures SelectsAdvertised(cap, plan) <==> SelectsOnlyPaths(cap, cap.entity, plan, [cap.entity], 0)
  {
    forall p ensures p in Paths(cap.catalog, cap.limits.maximumDepth, cap.entity, 0, [cap.entity]) <==>
                     PathOk(cap.catalog, cap.limits.maximumDepth, cap.entity, p, 0, [cap.entity])
    {
      PathsAreExact(cap.catalog, cap.limits.maximumDepth, cap.entity, 0, [cap.entity], p);
    }
  }

  /**
   * The selection stage. A plan's selection compiles exactly when its flags are true, none of its nodes is empty, every
   * path it selects is advertised, and the arguments, bound and route of each relationship it names are in order. The
   * root, the totals, the disclosure and the record budget come after it; `PlanAcceptance` has the whole compiler.
   */
  lemma AcceptedIffAdvertised(cap: Capability, st: State, plan: Plan)
    requires WellFormedTypes(cap.types) && ValidCatalog(cap.catalog) && ValidatedEntities(cap.types, cap.catalog)
    requires cap.entity in cap.catalog && 0 < cap.limits.maximumDepth
    ensures CompileEntity(cap, st, cap.entity, plan, [cap.entity], 0).Ok? <==>
            Shaped(plan) && SelectsAdvertised(cap, plan) && HeadsOk(cap, cap.entity, plan)
  {
    hide SelectsAdvertised, SelectsOnlyPaths;
    EntityIsStateless(cap, st, EMPTY_STATE, cap.entity, plan, [cap.entity], 0);
    AdvertisedAreThePaths(cap, plan);
    if CompileEntity(cap, EMPTY_STATE, cap.entity, plan, [cap.entity], 0).Ok? {
      AcceptedIsAcceptable(cap, cap.entity, plan, [cap.entity], 0);
    }
    if Acceptable(cap, cap.entity, plan, [cap.entity], 0) {
      AcceptableIsAccepted(cap, cap.entity, plan, [cap.entity], 0);
    }
  }
}
