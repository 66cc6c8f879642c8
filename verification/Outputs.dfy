/** How a query's result type is resolved to an entity and the route to it. */
module Outputs {
  import opened Common
  import opened TypeText
  import opened Schema
  import opened Routes
  import opened Execution
  import opened Compiler
  import opened Disclosing

  datatype EntityOutput = EntityOutput(entity: string, route: Route)

  /** `resolve_query_output` for a result whose named type is an object. */
  method ResolveEntityOutput(types: Types, catalog: Catalog, ty: Type, maximumDepth: nat)
    returns (r: Result<EntityOutput, RouteError>)
    requires WellFormedTypes(types)
    ensures r.Ok? ==> Resolves(types, catalog, ty, maximumDepth, r.value)
    ensures ty.Base() in catalog ==> r.Ok?
    ensures ty.Base() !in catalog ==>
      (r == Err(Ambiguous) <==> TwoShortest(types, catalog.Keys, ty.Base(), maximumDepth))
    ensures ty.Base() !in catalog ==>
      (r == Err(Unreachable) <==> forall b :: !EntityRoute(types, catalog.Keys, ty.Base(), maximumDepth, b))
  {
    var named := ty.Base();
    if named in catalog {
      return Ok(EntityOutput(named, RootListRoute(ty)));
    }
    var unique := UniqueEntityRoute(types, catalog.Keys, named, maximumDepth);
    UniqueRouteDecides(types, catalog.Keys, named, maximumDepth);
    if unique.Err? {
      return Err(unique.error);
    }
    var route := unique.value.route;
    if ty.ListOf? {
      route := [Segment("", true)] + route;
    }
    assert route == RootListRoute(ty) + unique.value.route;
    r := Ok(EntityOutput(unique.value.typeName, route));
  }

  /** The entity itself, or the end of a shortest route to an entity, behind the result's own list. */
  ghost predicate Resolves(types: Types, catalog: Catalog, ty: Type, maximumDepth: nat, output: EntityOutput) {
    if ty.Base() in catalog then output == EntityOutput(ty.Base(), RootListRoute(ty))
    else
      && RootListRoute(ty) <= output.route
      && ShortestRoute(types, catalog.Keys, ty.Base(), maximumDepth,
                       Arrival(output.entity, output.route[|RootListRoute(ty)|..]))
  }

  /** A capability compiled with a resolved output has a root that compiled queries can be answered through. */
  lemma ResolvedRootIsSound(cap: Capability)
    requires WellFormedTypes(cap.types) && FlatObjectLists(cap.types)
    requires forall name :: name in cap.catalog ==> IsObject(cap.types, name)
    requires var root := ObjectField(cap.types, cap.queryRoot, cap.fieldName);
      root.Some? ==> Resolves(cap.types, cap.catalog, root.value.ty, cap.limits.maximumDepth,
        EntityOutput(cap.entity, cap.route))
    ensures SoundRoot(cap)
  {
    var root := ObjectField(cap.types, cap.queryRoot, cap.fieldName);
    if root.Some? {
      var ty := root.value.ty;
      var rest := cap.route[|RootListRoute(ty)|..];
      if ty.Base() in cap.catalog {
        assert rest == [];
      } else {
        assert EntityRoute(cap.types, cap.catalog.Keys, ty.Base(), cap.limits.maximumDepth, Arrival(cap.entity, rest));
        WalkLeads(cap.types, cap.catalog.Keys, ty.Base(), rest, cap.entity);
      }
      assert Leads(cap.types, ty.Base(), rest, cap.entity);
      BaseIsObject(cap.types, ty, cap.route, cap.entity);
      assert root.value in cap.types[cap.queryRoot].fields;
    }
  }
}
