/** Advertised and callable paths that every plan is refused for, at the end of its compilation. */
module Refused {
  import opened Common
  import opened Disclosure
  import opened Records
  import opened TypeText
  import opened Schema
  import opened Routes
  import opened Plans
  import opened Arguments
  import opened Compiler
  import opened Disclosing
  import opened Heads
  import opened Advertised
  import opened Collector
  import opened LeastOptions
  import opened Costs
  import opened PathCosts
  import opened PlanAcceptance
  import opened Callability

  // query { user: User }, where a user has at most a hundred posts and a field with a reserved name.

  const TEXT: Type := Named("String", false)
  const POST_LIST: Type := ListOf(Named("Post", false), false)

  const TYPES: Types :=
    map["Query" := ObjectType([SchemaField("user", Named("User", false), [])]),
        "User" := ObjectType([SchemaField("posts", POST_LIST, []), SchemaField("__note", TEXT, [])]),
        "Post" := ObjectType([SchemaField("title", TEXT, [])])]

  const POSTS: Field :=
    Field("posts", true, Exportable, Public, Some(Relationship("Post", Many, Some(ServerFixed(100)))))
  const NOTE: Field := Field("__note", true, Exportable, Public, None)
  const TITLE: Field := Field("title", true, Exportable, Public, None)
  const CATALOG: Catalog := map["User" := Entity(Public, [POSTS, NOTE]), "Post" := Entity(Public, [TITLE])]

  const TITLES: Path := ["posts", "title"]
  const NOTES: Path := ["__note"]

  /** One root object, under given limits on selected fields and records. */
  function Users(maximumSelectedFields: nat, maximumResultRecords: u32): Capability {
    Capability(TYPES, CATALOG, Limits(4, maximumSelectedFields, 64, 100, maximumResultRecords),
               Validators((ty, v) => true, (ty, v) => true), "Query", "user", "User", [], None)
  }

  /** Schema, catalogue and capability have passed every check that is made before a plan arrives. */
  ghost predicate Offered(cap: Capability, p: Path)
    requires cap.entity in cap.catalog
  {
    && WellFormedTypes(cap.types) && ValidCatalog(cap.catalog) && ValidatedEntities(cap.types, cap.catalog)
    && Collectable(cap, cap.entity, 0, [cap.entity])
    && p in Paths(cap.catalog, cap.limits.maximumDepth, cap.entity, 0, [cap.entity])
    && RootCallable(cap) && CallablePath(cap, cap.entity, p)
  }

  // ---------------------------------------------------------------- everything before the plan is in order

  lemma NamesAreValid()
    ensures ValidName("posts") && ValidName("__note") && ValidName("title")
  {
  }

  lemma CatalogueIsValid()
    ensures WellFormedTypes(TYPES) && ValidCatalog(CATALOG)
  {
    hide ValidName;
    NamesAreValid();
    assert ValidEntity(CATALOG["User"]) && ValidEntity(CATALOG["Post"]);
  }

  lemma Lookups()
    ensures ObjectField(TYPES, "Query", "user") == Some(SchemaField("user", Named("User", false), []))
    ensures ObjectField(TYPES, "User", "posts") == Some(SchemaField("posts", POST_LIST, []))
    ensures ObjectField(TYPES, "User", "__note") == Some(SchemaField("__note", TEXT, []))
    ensures ObjectField(TYPES, "Post", "title") == Some(SchemaField("title", TEXT, []))
  {
  }

  lemma PostsRoute(maximumDepth: nat)
    ensures SpecificRoute(TYPES, "Post", POST_LIST, maximumDepth) == Some([Segment("", true)])
    ensures HasList([Segment("", true)])
  {
    assert [Segment("", true)][0].isList;
  }

  lemma CatalogueIsValidated()
    ensures ValidatedEntities(TYPES, CATALOG)
  {
    hide SpecificRoute;
    Lookups();
    PostsRoute(8);
    assert ValidatedEntity(TYPES, "User", CATALOG["User"]) && ValidatedEntity(TYPES, "Post", CATALOG["Post"]);
  }

  lemma PathsAreAdvertised()
    ensures TITLES in Paths(CATALOG, 4, "User", 0, ["User"]) && NOTES in Paths(CATALOG, 4, "User", 0, ["User"])
  {
    assert TITLES[1..] == ["title"];
    assert PathOk(CATALOG, 4, "Post", ["title"], 1, ["User", "Post"]);
    assert ["User"] + ["Post"] == ["User", "Post"];
    assert StepOk(CATALOG, 4, POSTS, ["title"], 0, ["User"]);
    PathsAreExact(CATALOG, 4, "User", 0, ["User"], TITLES);
    PathsAreExact(CATALOG, 4, "User", 0, ["User"], NOTES);
  }

  lemma PathsAreCollectable(maximumSelectedFields: nat, maximumResultRecords: u32)
    requires 100 <= maximumResultRecords
    ensures Collectable(Users(maximumSelectedFields, maximumResultRecords), "User", 0, ["User"])
  {
    hide Kept, ObjectField;
    Lookups();
    var cap := Users(maximumSelectedFields, maximumResultRecords);
    assert FieldsCollectable(cap, "Post", CATALOG["Post"].fields, 1, ["User"] + ["Post"]) by {
      NotKept(TITLE, 1, ["User"] + ["Post"]);
    }
    assert Collectable(cap, "Post", 1, ["User"] + ["Post"]);
    NotKept(NOTE, 0, ["User"]);
  }

  lemma NotKept(f: Field, depth: nat, ancestry: seq<string>)
    requires f.relationship.None?
    ensures !Kept(CATALOG, 4, f, depth, ancestry)
  {
  }

  lemma PathsAreCallable(maximumSelectedFields: nat, maximumResultRecords: u32)
    ensures var cap := Users(maximumSelectedFields, maximumResultRecords);
      RootCallable(cap) && CallablePath(cap, "User", TITLES) && CallablePath(cap, "User", NOTES)
  {
    hide ObjectField;
    Lookups();
    var cap := Users(maximumSelectedFields, maximumResultRecords);
    assert PageArguments(TYPES, []) == [];
    assert Callable(cap, "User", POSTS);
    assert CallablePath(cap, "Post", TITLES[1..]);
    assert CallableStep(cap, "User", POSTS, TITLES);
  }

  lemma PathsAreOffered(maximumSelectedFields: nat, maximumResultRecords: u32)
    requires 100 <= maximumResultRecords
    ensures var cap := Users(maximumSelectedFields, maximumResultRecords); Offered(cap, TITLES) && Offered(cap, NOTES)
  {
    hide WellFormedTypes, ValidCatalog, ValidatedEntities, Collectable, Paths, RootCallable, CallablePath;
    CatalogueIsValid();
    CatalogueIsValidated();
    PathsAreAdvertised();
    PathsAreCollectable(maximumSelectedFields, maximumResultRecords);
    PathsAreCallable(maximumSelectedFields, maximumResultRecords);
  }

  // ---------------------------------------------------------------- what the paths cost

  lemma NamesArePlain()
    ensures ValidFieldName("user") && ValidFieldName("posts") && ValidFieldName("title") && !ValidFieldName("__note")
  {
    assert "user"[0] == 'u' && "posts"[0] == 'p' && "title"[0] == 't';
  }

  /** The user and a hundred posts. */
  lemma TitlesCost(cap: Capability)
    requires cap.types == TYPES && cap.catalog == CATALOG && cap.queryRoot == "Query" && cap.fieldName == "user"
    requires cap.entity == "User" && cap.route == []
    ensures LeastCost(cap, TITLES) == Cost(2, 0, 101)
    ensures PathDisclosable(cap, "User", TITLES, 1)
  {
    hide SpecificRoute, ObjectField;
    Lookups();
    NamesArePlain();
    PostsRoute(cap.limits.maximumDepth);
    var route: Route := [Segment("", true)];
    assert route[1..] == [];
    assert TITLES[1..] == ["title"];
    assert RelationshipNamed(CATALOG["User"].fields, "posts") == Some(POSTS);
    assert RouteOf(cap, "User", POSTS) == route && Levels(route) == 1 && PlainRoute(route);
    assert RouteRecords([], 100, 1) == 1 && RouteRecords(route, 100, 1) == 100;
    assert PathCost(cap, "Post", ["title"]) == Cost(1, 0, 1);
    assert InputsOf(cap, "User", "posts") == [] && LeastArguments(TYPES, [], false) == 0;
    assert PathCost(cap, "User", TITLES) == Cost(2, 0, 101);
    assert InputsOf(cap, "Query", "user") == [];
    assert PathDisclosable(cap, "Post", ["title"], 3);
  }

  /**
   * A fixed bound may equal the record limit, but the object around the list is one record more: the collector takes
   * the bound, the path is advertised and callable, and every plan that selects it exceeds the budget.
   */
  lemma OneRecordTooMany(plan: Plan)
    requires Selects(plan, TITLES)
    ensures Offered(Users(64, 100), TITLES) && CompileTypedPlan(Users(64, 100), plan).Err?
  {
    hide Offered, CompileTypedPlan, LeastCost, Paths, CallablePath;
    PathsAreOffered(64, 100);
    TitlesCost(Users(64, 100));
    IfCompiledThenAffordable(Users(64, 100), plan, TITLES);
  }

  /** With one record more in the limit, some plan selects the same path. */
  lemma OneRecordMoreSuffices() returns (plan: Plan)
    ensures Offered(Users(64, 101), TITLES) && SelectsOnly(plan, TITLES) && CompileTypedPlan(Users(64, 101), plan).Ok?
  {
    hide CompileTypedPlan, LeastCost, Paths, CallablePath, PathDisclosable, WellFormedTypes, ValidCatalog,
      ValidatedEntities, Collectable;
    PathsAreOffered(64, 101);
    TitlesCost(Users(64, 101));
    NamesArePlain();
    assert Levels([]) == 0 && PlainRoute([]);
    plan := SelectablePathHasPlan(Users(64, 101), TITLES);
  }

  /** A catalogue may advertise a reserved name; no disclosure can hold it, so every plan that selects it is refused. */
  lemma ReservedNameIsRefused(plan: Plan)
    requires Selects(plan, NOTES)
    ensures Offered(Users(64, 1_000), NOTES) && CompileTypedPlan(Users(64, 1_000), plan).Err?
  {
    hide Offered, CompileTypedPlan, Paths, CallablePath;
    PathsAreOffered(64, 1_000);
    NamesArePlain();
    IfCompiledThenAffordable(Users(64, 1_000), plan, NOTES);
  }

  /** A path of more nodes than a plan may select is refused in every plan. */
  lemma TooManyNodes(plan: Plan)
    requires Selects(plan, TITLES)
    ensures Offered(Users(1, 1_000), TITLES) && CompileTypedPlan(Users(1, 1_000), plan).Err?
  {
    hide Offered, CompileTypedPlan, LeastCost, Paths, CallablePath;
    PathsAreOffered(1, 1_000);
    TitlesCost(Users(1, 1_000));
    IfCompiledThenAffordable(Users(1, 1_000), plan, TITLES);
  }

  lemma IfCompiledThenAffordable(cap: Capability, plan: Plan, p: Path)
    requires cap.entity in cap.catalog && 0 < cap.limits.maximumDepth && Offered(cap, p) && Selects(plan, p)
    ensures CompileTypedPlan(cap, plan).Ok? ==>
              Affordable(cap.limits, LeastCost(cap, p)) && PathDisclosable(cap, cap.entity, p, 1 + Levels(cap.route))
  {
    hide CompileTypedPlan, LeastCost, Paths, CallablePath, PathDisclosable, WellFormedTypes, ValidCatalog,
      ValidatedEntities, Collectable;
    if CompileTypedPlan(cap, plan).Ok? {
      CompiledPathsAreSelectable(cap, plan, p);
    }
  }
}
