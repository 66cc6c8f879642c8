/** When the arguments, bound and result type of one relationship are in order. */
module Heads {
  import opened Common
  import opened JsonModel
  import opened TypeText
  import opened Schema
  import opened Routes
  import opened Plans
  import opened Arguments
  import opened Compiler

  // ---------------------------------------------------------------- guards on schema and catalogue

  /** Many-valued relationships, and only they, declare a collection bound. */
  predicate CardinalityAgrees(r: Relationship) {
    r.cardinality == Many <==> r.bound.Some?
  }

  predicate IsPageable(r: Relationship) {
    r.bound.Some? && r.bound.value.Pageable?
  }

  /** The target is the result's own type or a walk of at most `maximumDepth` steps away from it. */
  ghost predicate RouteWithin(types: Types, ty: Type, target: string, maximumDepth: nat) {
    ty.Base() == target || exists a :: EntityRoute(types, {target}, ty.Base(), maximumDepth, a)
  }

  /** The input at `i` is the only page argument. */
  ghost predicate OnlyPage(types: Types, inputs: seq<SchemaInput>, i: nat) {
    && i < |inputs| && IsPageArgument(types, inputs[i])
    && forall j :: 0 <= j < |inputs| && j != i ==> !IsPageArgument(types, inputs[j])
  }

  /** A page argument that can carry a size: an integer, or an input object with a size field. */
  predicate CarriesSize(types: Types, page: SchemaInput) {
    var base := page.ty.Base();
    base == "Int" || (base in types && types[base].InputObjectType? && SizeField(types[base].inputs).Some?)
  }

  predicate WithinBounds(limits: Limits, n: u32) {
    0 < n <= limits.maximumListItems && n <= limits.maximumResultRecords
  }

  // ---------------------------------------------------------------- guards on what a plan supplies

  function Lookup(values: map<string, Json>, name: string): Option<Json> {
    if name in values then Some(values[name]) else None
  }

  /** The page argument completed by the bound, unless the plan set a size itself. */
  function PageValue(types: Types, page: SchemaInput, supplied: map<string, Json>, n: u32): Option<Json>
    requires CarriesSize(types, page)
  {
    var current := Lookup(supplied, page.name);
    if page.ty.Base() == "Int" then
      if current.Some? then None else Some(JNumber(n as real))
    else
      var size := SizeField(types[page.ty.Base()].inputs).value;
      var base := if current.Some? then current.value else JObject([]);
      if base.JObject? && Get(base.entries, size).None?
        then Some(JObject(base.entries + [Entry(size, JNumber(n as real))]))
      else None
  }

  /** A value the type admits, or the right to leave the input out. */
  predicate InputOk(validators: Validators, input: SchemaInput, value: Option<Json>) {
    if value.Some? then validators.admits(input.ty, value.value) else !input.ty.nonNull || input.hasDefault
  }

  /** Supplied values are known and well formed, and every input is served once `values` are delivered. */
  ghost predicate ArgumentsOk(
    validators: Validators, inputs: seq<SchemaInput>, supplied: map<string, Json>, values: map<string, Json>)
  {
    && supplied.Keys <= InputNames(inputs)
    && AllPrevalid(validators, inputs, supplied)
    && forall i :: 0 <= i < |inputs| ==> InputOk(validators, inputs[i], Lookup(values, inputs[i].name))
  }

  ghost predicate PagedArgumentsOk(
    cap: Capability, inputs: seq<SchemaInput>, supplied: map<string, Json>, n: u32, i: nat)
  {
    && OnlyPage(cap.types, inputs, i) && CarriesSize(cap.types, inputs[i])
    && var page := PageValue(cap.types, inputs[i], supplied, n);
       && page.Some?
       && ArgumentsOk(cap.validators, inputs, supplied, supplied[inputs[i].name := page.value])
  }

  /** Arguments and bound are what a field asks for: an admissible bound exactly where one is paged, and every value. */
  ghost predicate OptionsOk(
    cap: Capability, inputs: seq<SchemaInput>, paged: bool, supplied: map<string, Json>, maximumItems: Option<u32>)
  {
    if paged then
      && maximumItems.Some? && WithinBounds(cap.limits, maximumItems.value)
      && exists i: nat :: PagedArgumentsOk(cap, inputs, supplied, maximumItems.value, i)
    else
      maximumItems.None? && ArgumentsOk(cap.validators, inputs, supplied, supplied)
  }

  /** The arguments, bound and result type of a relationship are in order, whatever else the plan selects. */
  ghost predicate HeadOk(cap: Capability, entityName: string, f: Field, plan: Plan) {
    var actual := ObjectField(cap.types, entityName, f.name);
    && Traversable(f) && actual.Some?
    && CardinalityAgrees(f.relationship.value)
    && RouteWithin(cap.types, actual.value.ty, f.relationship.value.target, cap.limits.maximumDepth)
    && OptionsOk(
         cap, actual.value.arguments, IsPageable(f.relationship.value), plan.arguments, plan.maximumItems)
  }

  // ---------------------------------------------------------------- the guards are exact

  lemma {:induction false} BindingOkIff(
    validators: Validators, st: State, inputs: seq<SchemaInput>, values: map<string, Json>)
    ensures BindArguments(validators, st, inputs, values).Ok? <==>
            forall i :: 0 <= i < |inputs| ==> InputOk(validators, inputs[i], Lookup(values, inputs[i].name))
    decreases |inputs|
  {
    if inputs != [] {
      var input, rest := inputs[0], inputs[1..];
      assert forall i :: 0 <= i < |rest| ==> rest[i] == inputs[i + 1];
      assert inputs[0] == input && forall i :: 1 <= i < |inputs| ==> inputs[i] == rest[i - 1];
      if input.name !in values {
        BindingOkIff(validators, st, rest, values);
      } else {
        BindingOkIff(validators, Bind(st, input.ty, values[input.name]), rest, values);
      }
    }
  }

  lemma {:induction false} NoPages(types: Types, inputs: seq<SchemaInput>)
    ensures PageArguments(types, inputs) == [] <==> forall j :: 0 <= j < |inputs| ==> !IsPageArgument(types, inputs[j])
  {
    if inputs != [] {
      NoPages(types, inputs[1..]);
      assert forall j :: 1 <= j < |inputs| ==> inputs[j] == inputs[1..][j - 1];
    }
  }

  lemma {:induction false} OnlyPageIsListed(types: Types, inputs: seq<SchemaInput>, i: nat)
    requires OnlyPage(types, inputs, i)
    ensures PageArguments(types, inputs) == [inputs[i]]
  {
    var rest := inputs[1..];
    assert forall j :: 0 <= j < |rest| ==> rest[j] == inputs[j + 1];
    if i == 0 {
      NoPages(types, rest);
    } else {
      OnlyPageIsListed(types, rest, i - 1);
    }
  }

  lemma {:induction false} ListedIsOnlyPage(types: Types, inputs: seq<SchemaInput>) returns (i: nat)
    requires |PageArguments(types, inputs)| == 1
    ensures OnlyPage(types, inputs, i)
  {
    var rest := inputs[1..];
    assert forall j :: 1 <= j < |inputs| ==> inputs[j] == rest[j - 1];
    if IsPageArgument(types, inputs[0]) {
      NoPages(types, rest);
      i := 0;
    } else {
      var k := ListedIsOnlyPage(types, rest);
      i := k + 1;
    }
  }

  /** Injection succeeds exactly on a single page argument that can carry a size the plan did not set. */
  lemma InjectionOkIff(types: Types, inputs: seq<SchemaInput>, supplied: map<string, Json>, n: u32)
    ensures InjectPageLimit(types, inputs, supplied, n).Ok? <==>
            exists i: nat :: OnlyPage(types, inputs, i) && CarriesSize(types, inputs[i])
                        && PageValue(types, inputs[i], supplied, n).Some?
    ensures forall i: nat :: OnlyPage(types, inputs, i) && InjectPageLimit(types, inputs, supplied, n).Ok? ==>
              && CarriesSize(types, inputs[i]) && PageValue(types, inputs[i], supplied, n).Some?
              && InjectPageLimit(types, inputs, supplied, n).value
                 == supplied[inputs[i].name := PageValue(types, inputs[i], supplied, n).value]
  {
    hide InjectPageLimit, PageArguments, CarriesSize, PageValue;
    forall i: nat | OnlyPage(types, inputs, i)
      ensures InjectPageLimit(types, inputs, supplied, n).Ok? <==>
              CarriesSize(types, inputs[i]) && PageValue(types, inputs[i], supplied, n).Some?
      ensures InjectPageLimit(types, inputs, supplied, n).Ok? ==>
              InjectPageLimit(types, inputs, supplied, n).value
              == supplied[inputs[i].name := PageValue(types, inputs[i], supplied, n).value]
    {
      InjectionAt(types, inputs, supplied, n, i);
    }
    if InjectPageLimit(types, inputs, supplied, n).Ok? {
      InjectionIsSingle(types, inputs, supplied, n);
      var i := ListedIsOnlyPage(types, inputs);
    }
  }

  lemma InjectionAt(types: Types, inputs: seq<SchemaInput>, supplied: map<string, Json>, n: u32, i: nat)
    requires OnlyPage(types, inputs, i)
    ensures InjectPageLimit(types, inputs, supplied, n).Ok? <==>
            CarriesSize(types, inputs[i]) && PageValue(types, inputs[i], supplied, n).Some?
    ensures InjectPageLimit(types, inputs, supplied, n).Ok? ==>
            InjectPageLimit(types, inputs, supplied, n).value
            == supplied[inputs[i].name := PageValue(types, inputs[i], supplied, n).value]
  {
    hide PageArguments;
    OnlyPageIsListed(types, inputs, i);
  }

  lemma InjectionIsSingle(types: Types, inputs: seq<SchemaInput>, supplied: map<string, Json>, n: u32)
    ensures InjectPageLimit(types, inputs, supplied, n).Ok? ==> |PageArguments(types, inputs)| == 1
  {
  }

  lemma RouteWithinIff(types: Types, ty: Type, target: string, maximumDepth: nat)
    requires WellFormedTypes(types)
    ensures SpecificRoute(types, target, ty, maximumDepth).Some? <==> RouteWithin(types, ty, target, maximumDepth)
  {
    SpecificRouteFailsIffUnreachable(types, target, ty, maximumDepth);
  }

  lemma PageNameIsKnown(types: Types, inputs: seq<SchemaInput>, i: nat, supplied: map<string, Json>, v: Json)
    requires i < |inputs|
    ensures supplied[inputs[i].name := v].Keys <= InputNames(inputs) <==> supplied.Keys <= InputNames(inputs)
  {
    assert inputs[i].name in InputNames(inputs);
  }

  lemma PagedArgumentsOkIff(cap: Capability, st: State, inputs: seq<SchemaInput>, supplied: map<string, Json>, n: u32)
    ensures CompileArguments(cap.types, cap.limits, cap.validators, st, inputs, supplied, Some(n), true, true).Ok? <==>
            WithinBounds(cap.limits, n) && exists i: nat :: PagedArgumentsOk(cap, inputs, supplied, n, i)
  {
    hide InjectPageLimit, PageValue, CarriesSize, BindArguments, InputOk;
    InjectionOkIff(cap.types, inputs, supplied, n);
    var injected := InjectPageLimit(cap.types, inputs, supplied, n);
    if injected.Ok? {
      BindingOkIff(cap.validators, st, inputs, injected.value);
      forall i: nat | OnlyPage(cap.types, inputs, i)
        ensures injected.value.Keys <= InputNames(inputs) <==> supplied.Keys <= InputNames(inputs)
        ensures supplied.Keys <= InputNames(inputs) && AllPrevalid(cap.validators, inputs, supplied)
                && (forall j :: 0 <= j < |inputs| ==>
                      InputOk(cap.validators, inputs[j], Lookup(injected.value, inputs[j].name)))
                <==> PagedArgumentsOk(cap, inputs, supplied, n, i)
      {
        PageNameIsKnown(cap.types, inputs, i, supplied, PageValue(cap.types, inputs[i], supplied, n).value);
      }
      var i: nat :| OnlyPage(cap.types, inputs, i) && CarriesSize(cap.types, inputs[i])
                    && PageValue(cap.types, inputs[i], supplied, n).Some?;
    }
  }

  lemma PlainArgumentsOkIff(cap: Capability, st: State, inputs: seq<SchemaInput>, supplied: map<string, Json>)
    ensures CompileArguments(cap.types, cap.limits, cap.validators, st, inputs, supplied, None, false, false).Ok? <==>
            ArgumentsOk(cap.validators, inputs, supplied, supplied)
  {
    BindingOkIff(cap.validators, st, inputs, supplied);
  }

  lemma OptionsOkIff(
    cap: Capability, st: State, inputs: seq<SchemaInput>, paged: bool, supplied: map<string, Json>,
    maximumItems: Option<u32>)
    ensures CompileArguments(cap.types, cap.limits, cap.validators, st, inputs, supplied, maximumItems, paged,
              paged).Ok? <==>
            OptionsOk(cap, inputs, paged, supplied, maximumItems)
  {
    hide PagedArgumentsOk, ArgumentsOk, InjectPageLimit, BindArguments, AllPrevalid;
    PlainArgumentsOkIff(cap, st, inputs, supplied);
    if maximumItems.Some? {
      PagedArgumentsOkIff(cap, st, inputs, supplied, maximumItems.value);
    }
  }

  /** The compiler's own treatment of a relationship succeeds exactly under these guards, outside its ancestry. */
  lemma HeadOkIff(cap: Capability, entityName: string, f: Field, plan: Plan, ancestry: seq<string>, st: State)
    requires WellFormedTypes(cap.types)
    ensures var head := CompileRelationshipHead(cap, entityName, f, plan, ancestry, st);
      && (HeadOk(cap, entityName, f, plan) && f.relationship.value.target !in ancestry <==>
          head.Ok? && SpecificRoute(cap.types, f.relationship.value.target, head.value.ty,
            cap.limits.maximumDepth).Some?)
      && (head.Ok? ==> ObjectField(cap.types, entityName, f.name).Some?
                       && head.value.ty == ObjectField(cap.types, entityName, f.name).value.ty)
  {
    hide CompileArguments, OptionsOk, SpecificRoute, RouteWithin;
    var actual := ObjectField(cap.types, entityName, f.name);
    if Traversable(f) && actual.Some? {
      var inputs := actual.value.arguments;
      RouteWithinIff(cap.types, actual.value.ty, f.relationship.value.target, cap.limits.maximumDepth);
      OptionsOkIff(cap, st, inputs, IsPageable(f.relationship.value), plan.arguments, plan.maximumItems);
      FixedTakesNoBound(cap, inputs, plan);
    }
  }

  lemma FixedTakesNoBound(cap: Capability, inputs: seq<SchemaInput>, plan: Plan)
    ensures OptionsOk(cap, inputs, false, plan.arguments, plan.maximumItems) ==> plan.maximumItems.None?
  {
  }

  // ---------------------------------------------------------------- relationships that some plan can name

  /** The page argument has an admitted value that carries some admissible bound. */
  ghost predicate PageWith(cap: Capability, page: SchemaInput, n: u32, entries: seq<Entry>)
    requires CarriesSize(cap.types, page)
  {
    && WithinBounds(cap.limits, n)
    && if page.ty.Base() == "Int" then cap.validators.admits(page.ty, JNumber(n as real))
       else
         var size := SizeField(cap.types[page.ty.Base()].inputs).value;
         && Get(entries, size).None?
         && (entries == [] || cap.validators.prevalid(page.ty, JObject(entries)))
         && cap.validators.admits(page.ty, JObject(entries + [Entry(size, JNumber(n as real))]))
  }

  ghost predicate HasAdmittedValue(validators: Validators, input: SchemaInput) {
    exists v: Json :: validators.prevalid(input.ty, v) && validators.admits(input.ty, v)
  }

  /** Every required input, other than the server-owned ones, has an admitted value. */
  ghost predicate RequiredAdmitted(validators: Validators, inputs: seq<SchemaInput>, owned: set<string>) {
    forall i :: 0 <= i < |inputs| && inputs[i].name !in owned && inputs[i].ty.nonNull && !inputs[i].hasDefault ==>
      HasAdmittedValue(validators, inputs[i])
  }

  ghost predicate PageCallable(cap: Capability, inputs: seq<SchemaInput>, i: nat) {
    && OnlyPage(cap.types, inputs, i) && CarriesSize(cap.types, inputs[i])
    && (exists n: u32, entries: seq<Entry> :: PageWith(cap, inputs[i], n, entries))
    && RequiredAdmitted(cap.validators, inputs, {inputs[i].name})
  }

  /** Some options are in order for these inputs. */
  ghost predicate OptionsExist(cap: Capability, inputs: seq<SchemaInput>, paged: bool) {
    if paged then exists i: nat :: PageCallable(cap, inputs, i) else RequiredAdmitted(cap.validators, inputs, {})
  }

  /** Some plan can name the relationship: what schema, catalogue and limits must offer for that. */
  ghost predicate Callable(cap: Capability, entityName: string, f: Field) {
    var actual := ObjectField(cap.types, entityName, f.name);
    && Traversable(f) && actual.Some?
    && CardinalityAgrees(f.relationship.value)
    && RouteWithin(cap.types, actual.value.ty, f.relationship.value.target, cap.limits.maximumDepth)
    && OptionsExist(cap, actual.value.arguments, IsPageable(f.relationship.value))
  }

  lemma ServedIsAdmitted(
    validators: Validators, inputs: seq<SchemaInput>, supplied: map<string, Json>, values: map<string, Json>,
    owned: set<string>)
    requires ArgumentsOk(validators, inputs, supplied, values)
    requires forall k :: k !in owned ==> Lookup(values, k) == Lookup(supplied, k)
    ensures RequiredAdmitted(validators, inputs, owned)
  {
    forall i | 0 <= i < |inputs| && inputs[i].name !in owned && inputs[i].ty.nonNull && !inputs[i].hasDefault
      ensures HasAdmittedValue(validators, inputs[i])
    {
      assert InputOk(validators, inputs[i], Lookup(values, inputs[i].name));
      var v := supplied[inputs[i].name];
      assert validators.prevalid(inputs[i].ty, v) && validators.admits(inputs[i].ty, v);
    }
  }

  lemma PagedIsCallable(cap: Capability, inputs: seq<SchemaInput>, supplied: map<string, Json>, n: u32, i: nat)
    requires WithinBounds(cap.limits, n) && PagedArgumentsOk(cap, inputs, supplied, n, i)
    ensures PageCallable(cap, inputs, i)
  {
    var page := inputs[i];
    var v := PageValue(cap.types, page, supplied, n).value;
    ServedIsAdmitted(cap.validators, inputs, supplied, supplied[page.name := v], {page.name});
    assert InputOk(cap.validators, page, Lookup(supplied[page.name := v], page.name));
    var entries := if page.name in supplied && supplied[page.name].JObject? then supplied[page.name].entries else [];
    assert PageWith(cap, page, n, entries);
  }

  lemma OptionsOkExist(
    cap: Capability, inputs: seq<SchemaInput>, paged: bool, supplied: map<string, Json>, maximumItems: Option<u32>)
    requires OptionsOk(cap, inputs, paged, supplied, maximumItems)
    ensures OptionsExist(cap, inputs, paged)
  {
    hide ArgumentsOk, PagedArgumentsOk, PageCallable, RequiredAdmitted;
    if paged {
      var i: nat :| PagedArgumentsOk(cap, inputs, supplied, maximumItems.value, i);
      PagedIsCallable(cap, inputs, supplied, maximumItems.value, i);
    } else {
      ServedIsAdmitted(cap.validators, inputs, supplied, supplied, {});
    }
  }

  lemma HeadOkIsCallable(cap: Capability, entityName: string, f: Field, plan: Plan)
    requires HeadOk(cap, entityName, f, plan)
    ensures Callable(cap, entityName, f)
  {
    hide RouteWithin, OptionsOk, OptionsExist;
    var inputs := ObjectField(cap.types, entityName, f.name).value.arguments;
    OptionsOkExist(cap, inputs, IsPageable(f.relationship.value), plan.arguments, plan.maximumItems);
  }
}
