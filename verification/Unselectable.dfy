/** A catalogue that passes validation and advertises a path which no plan can select. */
module Unselectable {
  import opened Common
  import opened Disclosure
  import opened TypeText
  import opened Schema
  import opened Routes
  import opened Plans
  import opened Arguments
  import opened Compiler
  import opened Disclosing
  import opened Heads
  import opened Advertised
  import opened PlanAcceptance
  import opened Callability

  // Validation resolves relationship routes within eight steps; compilation within the depth limit, here two.
  // A user's best post lies three steps behind the field: best { b { c { post { title } } } }.

  function Link(name: string, target: string): SchemaType {
    ObjectType([SchemaField(name, Named(target, false), [])])
  }

  const TYPES: Types :=
    map["Query" := Link("user", "User"), "User" := Link("best", "A"), "A" := Link("b", "B"), "B" := Link("c", "C"),
      "C" := Link("post", "Post"),
        "Post" := Link("title", "String")]

  const BEST: Field := Field("best", true, Exportable, Public, Some(Relationship("Post", One, None)))
  const TITLE: Field := Field("title", true, Exportable, Public, None)
  const CATALOG: Catalog := map["User" := Entity(Public, [BEST]), "Post" := Entity(Public, [TITLE])]

  const CAPABILITY: Capability := Capability(
    TYPES, CATALOG, Limits(2, 64, 64, 100, 100), Validators((ty, v) => true, (ty, v) => true), "Query", "user",
      "User", [], None)

  const PATH: Path := ["best", "title"]

  /** Each link type has its one field. */
  lemma StepIsLink(from: string, s: Segment, to: string)
    ensures Step(TYPES, from, s, to) <==>
            || (from == "Query" && s == Segment("user", false) && to == "User")
            || (from == "User" && s == Segment("best", false) && to == "A")
            || (from == "A" && s == Segment("b", false) && to == "B")
            || (from == "B" && s == Segment("c", false) && to == "C")
            || (from == "C" && s == Segment("post", false) && to == "Post")
  {
  }

  lemma WalkFromA(route: Route, dest: string)
    requires Walk(TYPES, {"Post"}, "A", route, dest)
    ensures dest == if |route| == 0 then "A" else if |route| == 1 then "B" else if |route| == 2 then "C" else dest
  {
    hide Step;
    if route != [] {
      var n := |route| - 1;
      var mid :| mid !in {"Post"} && Walk(TYPES, {"Post"}, "A", route[..n], mid) && Step(TYPES, mid, route[n], dest);
      StepIsLink(mid, route[n], dest);
      if n > 0 {
        var before :| before !in {"Post"} && Walk(TYPES, {"Post"}, "A", route[..n][..n - 1], before)
                      && Step(TYPES, before, route[..n][n - 1], mid);
        StepIsLink(before, route[..n][n - 1], mid);
      }
    }
  }

  lemma RouteIsLong()
    ensures !RouteWithin(TYPES, Named("A", false), "Post", 2)
  {
    hide Walk;
    forall a ensures !EntityRoute(TYPES, {"Post"}, "A", 2, a) {
      if Walk(TYPES, {"Post"}, "A", a.route, a.typeName) {
        WalkFromA(a.route, a.typeName);
      }
    }
  }

  lemma RouteExists()
    ensures SpecificRoute(TYPES, "Post", Named("A", false), 8).Some?
  {
    hide Step, Walk, WellFormedTypes, SpecificRoute;
    CatalogueIsValid();
    var b, c, post := Segment("b", false), Segment("c", false), Segment("post", false);
    StepIsLink("A", b, "B");
    StepIsLink("B", c, "C");
    StepIsLink("C", post, "Post");
    var none: Route := [];
    assert none + [b] == [b] && [b] + [c] == [b, c] && [b, c] + [post] == [b, c, post];
    WalkNowhere(TYPES, {"Post"}, "A");
    WalkSnoc(TYPES, {"Post"}, "A", none, "A", b, "B");
    WalkSnoc(TYPES, {"Post"}, "A", [b], "B", c, "C");
    WalkSnoc(TYPES, {"Post"}, "A", [b, c], "C", post, "Post");
    assert EntityRoute(TYPES, {"Post"}, "A", 8, Arrival("Post", [b, c, post]));
    SpecificRouteFailsIffUnreachable(TYPES, "Post", Named("A", false), 8);
  }

  lemma {:induction false} LeadsThroughNoList(from: string, route: Route, to: string)
    requires Leads(TYPES, from, route, to)
    ensures !HasList(route)
    decreases |route|
  {
    if route != [] {
      var next :| Step(TYPES, from, route[0], next) && Leads(TYPES, next, route[1..], to);
      StepIsLink(from, route[0], next);
      LeadsThroughNoList(next, route[1..], to);
      assert forall i :: 1 <= i < |route| ==> route[i] == route[1..][i - 1];
    }
  }

  lemma CatalogueIsValid()
    ensures WellFormedTypes(TYPES) && ValidCatalog(CATALOG)
  {
    hide ValidName;
    NamesAreValid();
    LinksAreWellFormed();
    assert ValidEntity(CATALOG["User"]) && ValidEntity(CATALOG["Post"]);
  }

  lemma LinksAreWellFormed()
    ensures WellFormedTypes(TYPES)
  {
    forall name | IsObject(TYPES, name) ensures WellFormedFields(TYPES[name].fields) {
      LinkIsOneField(name);
    }
  }

  lemma LinkIsOneField(name: string)
    requires IsObject(TYPES, name)
    ensures WellFormedFields(TYPES[name].fields)
  {
    assert |TYPES[name].fields| == 1 && TYPES[name].fields[0].name != "" && TYPES[name].fields[0].arguments == [];
  }

  lemma NamesAreValid()
    ensures ValidName("best") && ValidName("title")
  {
  }

  lemma CatalogueIsValidated()
    ensures ValidatedEntities(TYPES, CATALOG)
  {
    CatalogueIsValid();
    hide WellFormedTypes, ValidCatalog, SpecificRoute, Leads;
    RouteExists();
    var ty := Named("A", false);
    SpecificRouteIsShortest(TYPES, "Post", ty, 8);
    var route := SpecificRoute(TYPES, "Post", ty, 8).value;
    assert route[0..] == route;
    LeadsThroughNoList("A", route, "Post");
    assert ObjectField(TYPES, "User", "best").value.ty == ty;
    assert ValidatedEntity(TYPES, "Post", CATALOG["Post"]);
  }

  lemma PathIsAdvertised()
    ensures PATH in Paths(CATALOG, 2, "User", 0, ["User"])
  {
    assert PATH[1..] == ["title"];
    assert PathOk(CATALOG, 2, "Post", ["title"], 1, ["User", "Post"]);
    assert ["User"] + ["Post"] == ["User", "Post"];
    assert StepOk(CATALOG, 2, BEST, ["title"], 0, ["User"]);
    PathsAreExact(CATALOG, 2, "User", 0, ["User"], PATH);
  }

  lemma PathIsNotCallable()
    ensures !CallablePath(CAPABILITY, "User", PATH)
  {
    hide RouteWithin;
    RouteIsLong();
    assert ObjectField(TYPES, "User", "best").value.ty == Named("A", false);
    assert !Callable(CAPABILITY, "User", BEST);
  }

  /** The path is advertised, and every plan that selects it is refused, whatever else it holds. */
  lemma AdvertisedButNeverAccepted(st: State, plan: Plan)
    requires Selects(plan, PATH)
    ensures WellFormedTypes(TYPES) && ValidCatalog(CATALOG) && ValidatedEntities(TYPES, CATALOG)
    ensures PATH in Paths(CATALOG, CAPABILITY.limits.maximumDepth, "User", 0, ["User"])
    ensures CompileEntity(CAPABILITY, st, "User", plan, ["User"], 0).Err? && CompileTypedPlan(CAPABILITY, plan).Err?
  {
    hide WellFormedTypes, ValidCatalog, ValidatedEntities, Paths, CallablePath, CompileEntity, CompileTypedPlan,
      Selects;
    CatalogueIsValid();
    CatalogueIsValidated();
    PathIsAdvertised();
    PathIsNotCallable();
    if CompileEntity(CAPABILITY, st, "User", plan, ["User"], 0).Ok? {
      AcceptedPathsAreCallable(CAPABILITY, st, plan, PATH);
    }
    if CompileTypedPlan(CAPABILITY, plan).Ok? {
      CompiledPathsAreSelectable(CAPABILITY, plan, PATH);
    }
  }
}
