/**
 * A small catalogue, plan and data graph that meet every hypothesis of the compiler's main theorem: a paged root list
 * of users, each with a paged connection of posts behind `edges` and `node`.
 */
module Example {
  import opened Common
  import opened JsonModel
  import opened Disclosure
  import opened Records
  import opened TypeText
  import opened Schema
  import opened Routes
  import opened Execution
  import opened Plans
  import opened Arguments
  import opened Compiler
  import opened Disclosing

  // ---------------------------------------------------------------- schema, catalogue and plan

  const INT: Type := Named("Int", false)
  const FIRST: SchemaInput := SchemaInput("first", INT, false)

  const USERS_FIELD: SchemaField := SchemaField("users", ListOf(Named("User", false), false), [FIRST])
  const NAME_FIELD: SchemaField := SchemaField("name", Named("String", false), [])
  const POSTS_FIELD: SchemaField := SchemaField("posts", Named("PostConnection", false), [FIRST])
  const EDGES_FIELD: SchemaField := SchemaField("edges", ListOf(Named("PostEdge", false), false), [])
  const NODE_FIELD: SchemaField := SchemaField("node", Named("Post", false), [])
  const TITLE_FIELD: SchemaField := SchemaField("title", Named("String", false), [])

  const TYPES: Types :=
    map["Query" := ObjectType([USERS_FIELD]), "User" := ObjectType([NAME_FIELD, POSTS_FIELD]),
        "PostConnection" := ObjectType([EDGES_FIELD]), "PostEdge" := ObjectType([NODE_FIELD]),
        "Post" := ObjectType([TITLE_FIELD])]

  const NAME: Field := Field("name", true, Exportable, Internal, None)
  const POSTS: Field := Field("posts", true, Exportable, Public,
    Some(Relationship("Post", Many, Some(Pageable("first")))))
  const TITLE: Field := Field("title", true, Exportable, Public, None)
  const CATALOG: Catalog := map["User" := Entity(Public, [NAME, POSTS]), "Post" := Entity(Public, [TITLE])]

  const EDGES: Segment := Segment("edges", true)
  const NODE: Segment := Segment("node", false)
  const ROOT_ROUTE: Route := [Segment("", true)]

  const LIMITS: Limits := Limits(4, 64, 64, 100, 100)

  const CAPABILITY: Capability := Capability(
    TYPES, CATALOG, LIMITS, Validators((ty, v) => true, (ty, v) => true), "Query", "users", "User", ROOT_ROUTE, None)

  const POSTS_PLAN: Plan := Plan(map[], map["title" := true], map[], Some(2))
  const PLAN: Plan := Plan(map[], map["name" := true], map["posts" := POSTS_PLAN], Some(3))

  // ---------------------------------------------------------------- the data graph

  function Asked(arguments: map<string, Json>): bool {
    "first" in arguments && arguments["first"].JNumber? && arguments["first"].n >= 1.0
  }

  /** Object 0 is the root, 1 is Ada, 2 and 3 are an empty and a full connection, 4 is the edge to her only post. */
  function TypeOf(id: nat): string {
    if id == 0 then "Query" else if id == 1 then "User" else if id <= 3 then "PostConnection"
    else if id == 4 then "PostEdge" else "Post"
  }

  function Resolve(id: nat, name: string, arguments: map<string, Json>): Data {
    if id == 0 then Items(if Asked(arguments) then [Node(1)] else [])
    else if id == 1 then
      if name == "posts" then Node(if Asked(arguments) then 3 else 2) else Leaf(JString("Ada"))
    else if id <= 3 then Items(if id == 3 then [Node(4)] else [])
    else if id == 4 then Node(5)
    else Leaf(JString("On engines"))
  }

  const WORLD: World := World(
    (id: nat) => TypeOf(id), (id: nat, name: string, arguments: map<string, Json>) => Resolve(id, name, arguments))

  // ---------------------------------------------------------------- the hypotheses

  lemma FieldsFound()
    ensures ObjectField(TYPES, "Query", "users") == Some(USERS_FIELD)
    ensures ObjectField(TYPES, "User", "name") == Some(NAME_FIELD)
    ensures ObjectField(TYPES, "User", "posts") == Some(POSTS_FIELD)
    ensures ObjectField(TYPES, "Post", "title") == Some(TITLE_FIELD)
  {
  }

  lemma StepIsLink(from: string, s: Segment, to: string)
    ensures Step(TYPES, from, s, to) <==>
            || (from == "Query" && s == Segment("users", true) && to == "User")
            || (from == "User" && s == Segment("posts", false) && to == "PostConnection")
            || (from == "PostConnection" && s == EDGES && to == "PostEdge")
            || (from == "PostEdge" && s == NODE && to == "Post")
  {
  }

  lemma RouteToPosts(maximumDepth: nat)
    requires maximumDepth >= 2
    ensures SpecificRoute(TYPES, "Post", POSTS_FIELD.ty, maximumDepth) == Some([EDGES, NODE])
  {
    hide Step, Walk, WellFormedTypes, SpecificRoute, Leads;
    TypesAreWellFormed();
    StepIsLink("PostConnection", EDGES, "PostEdge");
    StepIsLink("PostEdge", NODE, "Post");
    var none: Route := [];
    assert none + [EDGES] == [EDGES] && [EDGES] + [NODE] == [EDGES, NODE];
    WalkNowhere(TYPES, {"Post"}, "PostConnection");
    WalkSnoc(TYPES, {"Post"}, "PostConnection", none, "PostConnection", EDGES, "PostEdge");
    WalkSnoc(TYPES, {"Post"}, "PostConnection", [EDGES], "PostEdge", NODE, "Post");
    assert EntityRoute(TYPES, {"Post"}, "PostConnection", maximumDepth, Arrival("Post", [EDGES, NODE]));
    SpecificRouteFailsIffUnreachable(TYPES, "Post", POSTS_FIELD.ty, maximumDepth);
    SpecificRouteIsShortest(TYPES, "Post", POSTS_FIELD.ty, maximumDepth);
    var route := SpecificRoute(TYPES, "Post", POSTS_FIELD.ty, maximumDepth).value;
    assert route[0..] == route;
    OnlyRoute(route);
  }

  /** The connection has one way to a post, and a post leads nowhere. */
  lemma OnlyRoute(route: Route)
    requires Leads(TYPES, "PostConnection", route, "Post")
    ensures route == [EDGES, NODE]
  {
    hide Step;
    var edge :| Step(TYPES, "PostConnection", route[0], edge) && Leads(TYPES, edge, route[1..], "Post");
    StepIsLink("PostConnection", route[0], edge);
    var post :| Step(TYPES, "PostEdge", route[1..][0], post) && Leads(TYPES, post, route[1..][1..], "Post");
    StepIsLink("PostEdge", route[1..][0], post);
    NowhereFromPost(route[1..][1..]);
    assert route == [route[0]] + ([route[1..][0]] + route[1..][1..]);
  }

  lemma NowhereFromPost(route: Route)
    requires Leads(TYPES, "Post", route, "Post")
    ensures route == []
  {
    hide Step;
    forall s: Segment, next ensures !Step(TYPES, "Post", s, next) {
      StepIsLink("Post", s, next);
    }
  }

  lemma TypesAreWellFormed()
    ensures WellFormedTypes(TYPES) && FlatObjectLists(TYPES)
  {
  }

  lemma CatalogueIsValid()
    ensures ValidCatalog(CATALOG)
  {
    hide ValidName;
    NamesAreValid();
    assert ValidEntity(CATALOG["User"]) && ValidEntity(CATALOG["Post"]);
  }

  lemma NamesAreValid()
    ensures ValidName("name") && ValidName("posts") && ValidName("title")
  {
  }

  lemma ScalarsAreLeaves()
    ensures LeafScalars(TYPES, CATALOG)
  {
    hide ObjectField;
    FieldsFound();
  }

  lemma CatalogueIsValidated()
    ensures ValidatedEntities(TYPES, CATALOG)
  {
    hide SpecificRoute;
    FieldsFound();
    RouteToPosts(8);
    assert HasList([EDGES, NODE]) by { assert [EDGES, NODE][0].isList; }
    assert ValidatedEntity(TYPES, "User", CATALOG["User"]) && ValidatedEntity(TYPES, "Post", CATALOG["Post"]);
  }

  lemma SchemaIsSound()
    ensures SoundSchema(CAPABILITY) && SoundRoot(CAPABILITY)
  {
    hide WellFormedTypes, FlatObjectLists, ValidCatalog, LeafScalars, ValidatedEntities;
    TypesAreWellFormed();
    CatalogueIsValid();
    ScalarsAreLeaves();
    CatalogueIsValidated();
    FieldsFound();
    assert Leads(TYPES, "User", [], "User");
    assert ROOT_ROUTE[|RootListRoute(USERS_FIELD.ty)|..] == [];
  }

  lemma WorldConforms()
    ensures ConformingWorld(TYPES, WORLD)
  {
    hide ObjectField, Fits, Resolve;
    forall id: nat, name: string, arguments: map<string, Json> | ObjectField(TYPES, WORLD.typeOf(id), name).Some?
      ensures Fits(TYPES, WORLD, WORLD.resolve(id, name, arguments),
        ObjectField(TYPES, WORLD.typeOf(id), name).value.ty)
    {
      FieldOf(TypeOf(id), name);
      DataFits(id, name, arguments, ObjectField(TYPES, TypeOf(id), name).value);
    }
  }

  ghost predicate IsFieldOf(typeName: string, name: string, f: SchemaField) {
    || (typeName == "Query" && f == USERS_FIELD)
    || (typeName == "User" && name == f.name && (f == NAME_FIELD || f == POSTS_FIELD))
    || (typeName == "PostConnection" && f == EDGES_FIELD)
    || (typeName == "PostEdge" && f == NODE_FIELD)
    || (typeName == "Post" && f == TITLE_FIELD)
  }

  lemma DataFits(id: nat, name: string, arguments: map<string, Json>, f: SchemaField)
    requires IsFieldOf(TypeOf(id), name, f)
    ensures Fits(TYPES, WORLD, Resolve(id, name, arguments), f.ty)
  {
    assert TypeOf(1) == "User" && TypeOf(2) == TypeOf(3) == "PostConnection" && TypeOf(4) == "PostEdge"
      && TypeOf(5) == "Post";
  }

  /** Every field there is. */
  lemma FieldOf(typeName: string, name: string)
    ensures ObjectField(TYPES, typeName, name).Some? ==>
      IsFieldOf(typeName, name, ObjectField(TYPES, typeName, name).value)
  {
  }

  /** A page size of `n` in the one argument is what the resolvers go by. */
  lemma LimitIsFirst(arguments: map<string, Json>, n: nat)
    requires CarriesLimit(TYPES, [FIRST], arguments, n)
    ensures "first" in arguments && arguments["first"] == JNumber(n as real)
  {
    FirstIsThePage();
  }

  lemma FirstIsThePage()
    ensures IsPageArgument(TYPES, FIRST) && PageArguments(TYPES, [FIRST]) == [FIRST]
  {
    assert EqIgnoreCase("first", "first");
    assert [FIRST][1..] == [];
    assert PageArguments(TYPES, []) == [];
  }

  lemma PostsAreHonoured(arguments: map<string, Json>)
    ensures HonoursField(CAPABILITY, WORLD, 1, POSTS, arguments)
  {
    hide SpecificRoute;
    FieldsFound();
    RouteToPosts(4);
    forall n: nat | CarriesLimit(TYPES, [FIRST], arguments, n)
      ensures RouteBounded(WORLD, WORLD.resolve(1, "posts", arguments), [EDGES, NODE], n)
    {
      LimitIsFirst(arguments, n);
      var rest := [EDGES, NODE][1..];
      assert rest == [NODE] && [NODE][1..] == [];
      forall d | d == Node(4) ensures RouteBounded(WORLD, d, [NODE], n) {
        assert RouteBounded(WORLD, Node(5), [], n);
      }
    }
  }

  lemma BoundsAreHonoured()
    ensures HonoursBounds(CAPABILITY, WORLD) && HonoursRoot(CAPABILITY, WORLD, 0)
  {
    hide SpecificRoute, HonoursRoot, ObjectField, CarriesLimit;
    forall id: nat, f: Field, arguments: map<string, Json> | TypeOf(id) in CATALOG && f in CATALOG[TypeOf(id)].fields
      ensures HonoursField(CAPABILITY, WORLD, id, f, arguments)
    {
      if f == POSTS {
        PostsAreHonoured(arguments);
      }
    }
    RootIsHonoured();
  }

  lemma RootIsHonoured()
    ensures HonoursRoot(CAPABILITY, WORLD, 0)
  {
    hide ObjectField, CarriesLimit;
    FieldsFound();
    forall n: nat, arguments: map<string, Json> | CarriesLimit(TYPES, [FIRST], arguments, n)
      ensures RouteBounded(WORLD, WORLD.resolve(0, "users", arguments), ROOT_ROUTE, n)
    {
      LimitIsFirst(arguments, n);
      assert ROOT_ROUTE[1..] == [];
    }
  }

  // ---------------------------------------------------------------- the plan compiles

  function Paged(st: State, n: u32): State {
    Bind(st, INT, JNumber(n as real))
  }

  lemma PagesCompile(st: State, n: u32)
    requires 0 < n <= 100
    ensures CompileArguments(TYPES, LIMITS, CAPABILITY.validators, st, [FIRST], map[], Some(n), true, true)
            == Ok((Paged(st, n), [Argument("first", Variable(VariableName(|st.variables|)))]))
  {
    hide InjectPageLimit, Bind, VariableName;
    var values := map["first" := JNumber(n as real)];
    PageIsInjected(n);
    assert AllPrevalid(CAPABILITY.validators, [FIRST], map[]);
    assert values.Keys <= InputNames([FIRST]) by { assert [FIRST][0].name == "first"; }
    FirstIsBound(st, values);
  }

  lemma PageIsInjected(n: u32)
    ensures InjectPageLimit(TYPES, [FIRST], map[], n) == Ok(map["first" := JNumber(n as real)])
  {
    FirstIsThePage();
  }

  lemma FirstIsBound(st: State, values: map<string, Json>)
    requires "first" in values
    ensures BindArguments(CAPABILITY.validators, st, [FIRST], values)
            == Ok((Bind(st, INT, values["first"]), [Argument("first", Variable(VariableName(|st.variables|)))]))
  {
    hide Bind, VariableName;
    assert CAPABILITY.validators.admits(INT, values["first"]);
    assert [FIRST][1..] == [] && [FIRST][0] == FIRST;
    assert BindArguments(CAPABILITY.validators, Bind(st, INT, values["first"]), [], values)
           == Ok((Bind(st, INT, values["first"]), []));
    var argument := Argument("first", Variable(VariableName(|st.variables|)));
    assert [argument] + [] == [argument];
  }

  const POST_SHAPE: Shape := Object(ExportableRule(Public), map["title" := Scalar(ExportableRule(Public))])

  lemma PostCompiles(st: State)
    ensures CompileEntity(CAPABILITY, st, "Post", POSTS_PLAN, ["User", "Post"], 1)
            == Ok(CompiledEntity(Count(st), [Selection("title", "title", [], [])], POST_SHAPE))
  {
    FieldsFound();
    var p := AddScalar(Partial(st, [], map[]), TITLE);
    assert [TITLE][1..] == [];
    assert CompileScalars(CAPABILITY, "Post", [], POSTS_PLAN, p) == Ok(p);
    assert CompileScalars(CAPABILITY, "Post", [TITLE], POSTS_PLAN, Partial(st, [], map[])) == Ok(p);
    assert CompileRelationships(CAPABILITY, "Post", [], POSTS_PLAN, ["User", "Post"], 1, p) == Ok(p);
    assert CompileRelationships(CAPABILITY, "Post", [TITLE], POSTS_PLAN, ["User", "Post"], 1, p) == Ok(p);
    assert HasField([TITLE], "title") by { assert [TITLE][0].name == "title"; }
    assert p.rendered == [Selection("title", "title", [], [])] && p.state == Count(st);
    assert p.shapes == map["title" := Scalar(ExportableRule(Public))];
    assert MaximumClassification(p.shapes["title"]) == Public;
    assert (set k | k in p.shapes :: MaximumClassification(p.shapes[k])) == {Public};
  }

  const EDGE_SHAPE: Shape := Object(ExportableRule(Public), map["node" := POST_SHAPE])
  const CONNECTION_SHAPE: Shape :=
    Object(ExportableRule(Public), map["edges" := List(ExportableRule(Public), 2, None, EDGE_SHAPE)])

  lemma ConnectionWraps(sub: seq<Selection>)
    ensures WrapRoute([EDGES, NODE], sub, POST_SHAPE, 2).1 == CONNECTION_SHAPE
  {
    assert [EDGES, NODE][1..] == [NODE] && [NODE][1..] == [];
    assert WrapRoute([], sub, POST_SHAPE, 2) == (sub, POST_SHAPE);
    assert MaximumClassification(POST_SHAPE) == Public;
    assert WrapRoute([NODE], sub, POST_SHAPE, 2).1 == EDGE_SHAPE;
    assert MaximumClassification(EDGE_SHAPE) == Public;
    assert MaximumClassification(List(ExportableRule(Public), 2, None, EDGE_SHAPE)) == Public;
  }

  lemma PostsCompile(p: Partial)
    ensures CompileRelationship(CAPABILITY, "User", POSTS, POSTS_PLAN, ["User"], 0, p).Ok?
    ensures var q := CompileRelationship(CAPABILITY, "User", POSTS, POSTS_PLAN, ["User"], 0, p).value;
      && q.state == Count(Count(Paged(p.state, 2))) && |q.rendered| == |p.rendered| + 1
      && q.shapes == p.shapes["posts" := CONNECTION_SHAPE]
  {
    hide CompileEntity, SpecificRoute, CompileArguments, WrapRoute;
    FieldsFound();
    PagesCompile(p.state, 2);
    RouteToPosts(4);
    assert ["User"] + ["Post"] == ["User", "Post"];
    PostCompiles(Paged(p.state, 2));
    ConnectionWraps([Selection("title", "title", [], [])]);
  }

  const USER_SHAPE: Shape :=
    Object(ExportableRule(Internal), map["name" := Scalar(ExportableRule(Internal)), "posts" := CONNECTION_SHAPE])

  lemma UserCompiles(st: State)
    ensures CompileEntity(CAPABILITY, st, "User", PLAN, ["User"], 0).Ok?
    ensures var c := CompileEntity(CAPABILITY, st, "User", PLAN, ["User"], 0).value;
      c.shape == USER_SHAPE && c.state == Count(Count(Paged(Count(st), 2)))
  {
    hide CompileRelationships, CompileScalars, MaximumOfFields, SelectableScalar, ObjectField;
    var p := UserScalars(st);
    var q := UserRelationships(p);
    var fields := [NAME, POSTS];
    assert HasField(fields, "name") by { assert fields[0].name == "name"; }
    assert HasField(fields, "posts") by { assert fields[1].name == "posts"; }
    assert q.shapes == USER_SHAPE.fields;
    UserClass();
  }

  lemma UserScalars(st: State) returns (p: Partial)
    ensures p == AddScalar(Partial(st, [], map[]), NAME)
    ensures CompileScalars(CAPABILITY, "User", [NAME, POSTS], PLAN, Partial(st, [], map[])) == Ok(p)
  {
    FieldsFound();
    hide ObjectField;
    p := AddScalar(Partial(st, [], map[]), NAME);
    assert [NAME, POSTS][1..] == [POSTS] && [POSTS][1..] == [];
    assert CompileScalars(CAPABILITY, "User", [], PLAN, p) == Ok(p);
    assert CompileScalars(CAPABILITY, "User", [POSTS], PLAN, p) == Ok(p);
  }

  lemma UserRelationships(p: Partial) returns (q: Partial)
    ensures CompileRelationships(CAPABILITY, "User", [NAME, POSTS], PLAN, ["User"], 0, p) == Ok(q)
    ensures q.state == Count(Count(Paged(p.state, 2))) && |q.rendered| == |p.rendered| + 1
    ensures q.shapes == p.shapes["posts" := CONNECTION_SHAPE]
  {
    hide CompileRelationship;
    PostsCompile(p);
    q := CompileRelationship(CAPABILITY, "User", POSTS, POSTS_PLAN, ["User"], 0, p).value;
    assert [NAME, POSTS][1..] == [POSTS] && [POSTS][1..] == [];
    assert CompileRelationships(CAPABILITY, "User", [], PLAN, ["User"], 0, q) == Ok(q);
    assert CompileRelationships(CAPABILITY, "User", [POSTS], PLAN, ["User"], 0, p) == Ok(q);
  }

  lemma UserClass()
    ensures MaximumOfFields(USER_SHAPE.fields, Public) == Internal
  {
    ConnectionIsPublic();
    var fields := USER_SHAPE.fields;
    assert MaximumClassification(fields["name"]) == Internal && MaximumClassification(fields["posts"]) == Public;
    assert (set k | k in fields :: MaximumClassification(fields[k])) == {Internal, Public};
  }

  lemma ConnectionIsPublic()
    ensures MaximumClassification(CONNECTION_SHAPE) == Public
  {
    assert MaximumClassification(POST_SHAPE) == Public;
    assert MaximumClassification(EDGE_SHAPE) == Public;
    assert MaximumClassification(List(ExportableRule(Public), 2, None, EDGE_SHAPE)) == Public;
  }

  const RESULT: Shape := List(ExportableRule(Internal), 3, None, USER_SHAPE)

  lemma NamesAreLegal()
    ensures ValidFieldName("users") && ValidFieldName("name") && ValidFieldName("posts")
    ensures ValidFieldName("edges") && ValidFieldName("node") && ValidFieldName("title")
  {
    assert "__"[0] == '_';
    assert "users"[0] == 'u' && "name"[0] == 'n' && "posts"[0] == 'p';
    assert "edges"[0] == 'e' && "node"[0] == 'n' && "title"[0] == 't';
  }

  lemma ResultIsValid()
    ensures ValidShape(RESULT, 1) && ValidShape(Object(ExportableRule(Internal), map["users" := RESULT]), 0)
  {
    hide ValidFieldName;
    NamesAreLegal();
    assert ValidShape(POST_SHAPE, 6);
    assert ValidShape(EDGE_SHAPE, 5);
    assert ValidShape(CONNECTION_SHAPE, 3);
    assert ValidShape(USER_SHAPE, 2);
  }

  /** One nested field: the object itself and what it holds. */
  lemma OneField(s: Shape, name: string)
    requires s.Object? && name in s.fields && forall k :: k in s.fields && k != name ==> s.fields[k].Scalar?
    ensures Worst(s) == 1 + WorstNested(s.fields[name])
  {
    WorstFieldsRemove(s, s.fields.Keys, name);
    ScalarsAreFree(s, s.fields.Keys - {name});
  }

  /** Three users, each with a connection and two edges to posts. */
  lemma ResultCount()
    ensures MaximumRecordCount(RESULT) == Some(18)
  {
    OneField(POST_SHAPE, "title");
    OneField(EDGE_SHAPE, "node");
    OneField(CONNECTION_SHAPE, "edges");
    OneField(USER_SHAPE, "posts");
    ResultIsValid();
    ValidIsPositive(RESULT, 1);
    StaticCountIsExact(RESULT);
  }

  lemma PlanCompiles()
    ensures CompileTypedPlan(CAPABILITY, PLAN).Ok?
  {
    hide CompileEntity, CompileArguments, MaximumRecordCount, ValidShape, MaximumClassification, ObjectField,
      PageArguments;
    FieldsFound();
    FirstIsThePage();
    assert HasList(ROOT_ROUTE) by { assert ROOT_ROUTE[0].isList; }
    PagesCompile(EMPTY_STATE, 3);
    UserCompiles(Paged(EMPTY_STATE, 3));
    var entity := CompileEntity(CAPABILITY, Paged(EMPTY_STATE, 3), "User", PLAN, ["User"], 0).value;
    assert ROOT_ROUTE[1..] == [];
    UserIsInternal();
    assert WrapRoute(ROOT_ROUTE, entity.selections, USER_SHAPE, 3).1 == RESULT;
    ResultIsValid();
    ResultCount();
    EnvelopeCount(RESULT);
  }

  lemma UserIsInternal()
    ensures MaximumClassification(USER_SHAPE) == Internal && MaximumClassification(RESULT) == Internal
  {
    ConnectionIsPublic();
    assert MaximumClassification(USER_SHAPE.fields["name"]) == Internal;
  }

  lemma EnvelopeCount(s: Shape)
    ensures MaximumGraphqlRecordCount(Object(ExportableRule(Internal), map["users" := s])) == MaximumRecordCount(s)
  {
    var fields := map["users" := s];
    assert |fields| == 1;
    assert forall name :: name in fields ==> name == "users";
  }

  /** The main theorem applies: the answer about Ada and her posts is disclosed, within the ceiling. */
  lemma AdaIsDisclosed()
    ensures SoundSchema(CAPABILITY) && SoundRoot(CAPABILITY)
    ensures ConformingWorld(TYPES, WORLD) && HonoursBounds(CAPABILITY, WORLD) && HonoursRoot(CAPABILITY, WORLD, 0)
    ensures CompileTypedPlan(CAPABILITY, PLAN).Ok?
    ensures var c := CompileTypedPlan(CAPABILITY, PLAN).value;
      && Discloses(Respond(WORLD, c, 0), c.disclosure)
      && GraphqlFailure(Respond(WORLD, c, 0), c.disclosure, CAPABILITY.limits.maximumResultRecords).None?
  {
    hide SoundSchema, SoundRoot, ConformingWorld, HonoursBounds, HonoursRoot, CompileTypedPlan, Respond, Discloses,
      GraphqlFailure;
    SchemaIsSound();
    WorldConforms();
    BoundsAreHonoured();
    PlanCompiles();
    CompiledQueryDiscloses(CAPABILITY, PLAN, WORLD, 0);
  }
}
