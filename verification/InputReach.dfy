/**
 * Which input type owns a nested input: the worklist over the finished input-type graph, against reachability
 * along the members that the generated filter inputs admit.
 */
module InputReach {
  import opened Common
  import opened Disclosure
  import opened TypeText
  import opened Schema

  /** What the search reads of an entity field. */
  datatype FilterField = FilterField(
    name: string,
    isRelationship: bool,
    disposition: Disposition,
    classification: Classification,
    hasOperators: bool,
    filterType: Option<Type>)

  /** The schema, the filterable fields of each entity, and the operator helpers, if they validate. */
  datatype InputGraph = InputGraph(types: Types, entities: map<string, seq<FilterField>>, roles: Option<set<string>>)

  predicate IsWhereInput(name: string, entity: string) {
    name == entity + "WhereInput"
  }

  predicate Filterable(f: FilterField, name: string) {
    f.name == name && !f.isRelationship && f.disposition == Exportable && f.classification != Secret && f.hasOperators
  }

  function FindFilterable(fields: seq<FilterField>, name: string): Option<FilterField> {
    if fields == [] then None
    else if Filterable(fields[0], name) then Some(fields[0])
    else FindFilterable(fields[1..], name)
  }

  /** The reference to a validated operator helper ends a filter path. */
  predicate OperatorBoundary(g: InputGraph, f: FilterField, ty: Type) {
    f.filterType == Some(ty) && g.roles.Some? && ty.Base() in g.roles.value
  }

  predicate AdmittedBy(g: InputGraph, entity: string, input: SchemaInput)
    requires entity in g.entities
  {
    var f := FindFilterable(g.entities[entity], input.name);
    f.Some? && !OperatorBoundary(g, f.value, input.ty)
  }

  /** Whether the search follows one member of one input object. */
  predicate Admitted(g: InputGraph, name: string, input: SchemaInput) {
    forall entity :: entity in g.entities && IsWhereInput(name, entity) ==> AdmittedBy(g, entity, input)
  }

  predicate InputObject(g: InputGraph, name: string) {
    name in g.types && g.types[name].InputObjectType?
  }

  ghost predicate Edge(g: InputGraph, from: string, to: string) {
    InputObject(g, from) && exists input :: input in g.types[from].inputs && Admitted(g, from, input)
                              && input.ty.Base() == to
  }

  /** Reference: a path of admitted edges. */
  ghost predicate InputPath(g: InputGraph, path: seq<string>, from: string, to: string) {
    && path != [] && path[0] == from && path[|path| - 1] == to
    && forall i :: 0 <= i < |path| - 1 ==> Edge(g, path[i], path[i + 1])
  }

  ghost predicate Reaches(g: InputGraph, from: string, to: string) {
    exists path :: InputPath(g, path, from, to)
  }

  lemma ReachesItself(g: InputGraph, from: string)
    ensures Reaches(g, from, from)
  {
    assert InputPath(g, [from], from, from);
  }

  lemma ReachesFurther(g: InputGraph, from: string, mid: string, to: string)
    requires Reaches(g, from, mid) && Edge(g, mid, to)
    ensures Reaches(g, from, to)
  {
    var path :| InputPath(g, path, from, mid);
    assert InputPath(g, path + [to], from, to);
  }

  /** A set closed under edges holds everything its members reach. */
  lemma {:induction false} ClosedHoldsPaths(
    g: InputGraph, closed: set<string>, path: seq<string>, from: string, to: string)
    requires forall v, b :: v in closed && Edge(g, v, b) ==> b in closed
    requires from in closed && InputPath(g, path, from, to)
    ensures to in closed
    decreases |path|
  {
    if |path| > 1 {
      assert Edge(g, path[0], path[1]);
      assert InputPath(g, path[1..], path[1], to);
      ClosedHoldsPaths(g, closed, path[1..], path[1], to);
    }
  }

  function BasesOf(inputs: seq<SchemaInput>): set<string> {
    set i | 0 <= i < |inputs| :: inputs[i].ty.Base()
  }

  /** Every name the search can ever meet. */
  function AllNames(g: InputGraph, start: Type): set<string> {
    {start.Base()} + (set n, b | n in g.types && g.types[n].InputObjectType? && b in BasesOf(g.types[n].inputs) :: b)
  }

  /** Adds the types of the admitted members of one input object. */
  method PushAdmitted(g: InputGraph, name: string, pending: set<Type>) returns (r: set<Type>)
    requires InputObject(g, name)
    ensures pending <= r
    ensures forall ty :: ty in r ==>
              ty in pending || (Edge(g, name, ty.Base()) && ty.Base() in BasesOf(g.types[name].inputs))
    ensures forall b :: Edge(g, name, b) ==> exists ty :: ty in r && ty.Base() == b
  {
    r := pending;
    var inputs := g.types[name].inputs;
    for i := 0 to |inputs|
      invariant pending <= r
      invariant forall ty :: ty in r ==> ty in pending || (Edge(g, name, ty.Base()) && ty.Base() in BasesOf(inputs))
      invariant forall k :: 0 <= k < i && Admitted(g, name, inputs[k]) ==> inputs[k].ty in r
    {
      if Admitted(g, name, inputs[i]) {
        assert inputs[i] in inputs;
        r := r + {inputs[i].ty};
      }
    }
    forall b | Edge(g, name, b) ensures exists ty :: ty in r && ty.Base() == b {
      var input :| input in inputs && Admitted(g, name, input) && input.ty.Base() == b;
      var k :| 0 <= k < |inputs| && inputs[k] == input;
      assert inputs[k].ty in r;
    }
  }

  ghost predicate Sound(g: InputGraph, start: Type, target: string, pending: set<Type>, visited: set<string>) {
    && (forall ty :: ty in pending ==> Reaches(g, start.Base(), ty.Base()) && ty.Base() in AllNames(g, start))
    && (forall v :: v in visited ==> Reaches(g, start.Base(), v))
    && target !in visited
  }

  ghost predicate Waits(pending: set<Type>, name: string) {
    exists ty :: ty in pending && ty.Base() == name
  }

  ghost predicate Complete(g: InputGraph, start: Type, pending: set<Type>, visited: set<string>) {
    && (start.Base() in visited || Waits(pending, start.Base()))
    && forall v, b :: v in visited && Edge(g, v, b) ==> b in visited || Waits(pending, b)
  }

  /** `input_type_reaches`: terminates on cyclic input types and decides reachability along admitted edges. */
  method InputTypeReaches(g: InputGraph, start: Type, target: string) returns (r: bool)
    ensures r <==> Reaches(g, start.Base(), target)
  {
    var pending, visited := {start}, {};
    ReachesItself(g, start.Base());
    assert start in pending;
    while pending != {}
      invariant Sound(g, start, target, pending, visited) && Complete(g, start, pending, visited)
      decreases AllNames(g, start) - visited, |pending|
    {
      hide Reaches, AllNames, Edge;
      var ty :| ty in pending;
      ghost var before := pending;
      pending := pending - {ty};
      var name := ty.Base();
      if name == target {
        return true;
      }
      if name in visited {
        StillWaits(before, ty, pending, visited);
      } else {
        ghost var seen := visited;
        visited := visited + {name};
        ghost var rest := pending;
        if InputObject(g, name) {
          pending := PushAdmitted(g, name, pending);
          PushedAreNamed(g, start, name);
          forall t | t in pending ensures Reaches(g, start.Base(), t.Base()) && t.Base() in AllNames(g, start) {
            if t !in rest {
              ReachesFurther(g, start.Base(), name, t.Base());
            }
          }
        } else {
          NoEdges(g, name);
        }
        StillWaits(before, ty, pending, visited);
      }
    }
    if Reaches(g, start.Base(), target) {
      var path :| InputPath(g, path, start.Base(), target);
      ClosedHoldsPaths(g, visited, path, start.Base(), target);
      assert false;
    }
    r := false;
  }

  lemma NoEdges(g: InputGraph, name: string)
    requires !InputObject(g, name)
    ensures forall b :: !Edge(g, name, b)
  {
  }

  lemma PushedAreNamed(g: InputGraph, start: Type, name: string)
    requires InputObject(g, name)
    ensures BasesOf(g.types[name].inputs) <= AllNames(g, start)
  {
  }

  /** Only the popped type stops waiting, and it has been visited. */
  lemma StillWaits(before: set<Type>, ty: Type, after: set<Type>, visited: set<string>)
    requires before - {ty} <= after && ty.Base() in visited
    ensures forall b :: Waits(before, b) ==> b in visited || Waits(after, b)
  {
  }
}
