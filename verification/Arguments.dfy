/** Lifting plan arguments into variables, and injecting page bounds. */
module Arguments {
  import opened Common
  import opened JsonModel
  import opened TypeText
  import opened Schema
  import opened Execution

  datatype CompileError =
    | BoundMissingOrUnexpected | BoundExceedsLimits | InvalidArgument | UnknownArgument | MissingArgument
    | NoUniquePageArgument | PageSizeIsServerOwned | PageArgumentShape
    | TooDeep | MissingEntity | FlagMustBeTrue | HiddenOrNotScalar | MissingSchemaField | UnknownFieldName
    | NotARelationship | HiddenOrCyclic | CollectionBoundInvalid | FixedBoundSelected | NoRoute
    | UnknownRelationship | EmptySelection | TooComplex | InvalidDisclosure | RecordBudgetExceeded
    | FixedResultShape | AggregateBoundMissing | AggregateUnavailable

  /** The deployment ceilings that the compiler reads. */
  datatype Limits = Limits(
    maximumDepth: nat,
    maximumSelectedFields: nat,
    maximumArguments: nat,
    maximumListItems: u32,
    maximumResultRecords: u32)

  /** The JSON Schema checks of one argument value are foreign code: the two predicates stand for them. */
  datatype Validators = Validators(prevalid: (Type, Json) -> bool, admits: (Type, Json) -> bool)

  datatype Definition = Definition(name: string, ty: Type)

  /** The mutable part of `CompileContext`. */
  datatype State = State(
    variables: map<string, Json>,
    definitions: seq<Definition>,
    schemas: map<string, Type>,
    selectedFields: nat,
    arguments: nat)

  const EMPTY_STATE: State := State(map[], [], map[], 0, 0)

  // ---------------------------------------------------------------- variable names

  function Digit(n: nat): char
    requires n < 10
  {
    "0123456789"[n]
  }

  function Decimal(n: nat): (s: string)
    ensures s != ""
  {
    if n < 10 then [Digit(n)] else Decimal(n / 10) + [Digit(n % 10)]
  }

  function VariableName(n: nat): string {
    "v" + Decimal(n)
  }

  lemma {:induction false} DecimalInjective(a: nat, b: nat)
    requires Decimal(a) == Decimal(b)
    ensures a == b
  {
    var s := Decimal(a);
    assert s[|s| - 1] == Digit(a % 10) && s[|s| - 1] == Digit(b % 10);
    assert a % 10 == b % 10;
    if a >= 10 && b >= 10 {
      assert s[..|s| - 1] == Decimal(a / 10) && s[..|s| - 1] == Decimal(b / 10);
      DecimalInjective(a / 10, b / 10);
    }
  }

  lemma VariableNameInjective(a: nat, b: nat)
    ensures VariableName(a) == VariableName(b) <==> a == b
  {
    if VariableName(a) == VariableName(b) {
      assert VariableName(a)[1..] == Decimal(a) && VariableName(b)[1..] == Decimal(b);
      DecimalInjective(a, b);
    }
  }

  /** The names `v{from}` up to but not including `v{to}`, in order. */
  function VariableNames(from: nat, to: nat): (s: seq<string>)
    requires from <= to
    ensures |s| == to - from
    ensures forall i :: 0 <= i < |s| ==> s[i] == VariableName(from + i)
  {
    seq(to - from, i requires 0 <= i < to - from => VariableName(from + i))
  }

  ghost function NameSet(n: nat): set<string> {
    if n == 0 then {} else NameSet(n - 1) + {VariableName(n - 1)}
  }

  lemma {:induction false} NameSetMembers(n: nat, k: nat)
    ensures VariableName(k) in NameSet(n) <==> k < n
    ensures |NameSet(n)| == n
  {
    if n > 0 {
      NameSetMembers(n - 1, k);
      NameSetMembers(n - 1, n - 1);
      VariableNameInjective(k, n - 1);
    }
  }

  /** Values, definitions, schemas and the counter agree at every point of a compilation. */
  ghost predicate Consistent(st: State) {
    && st.variables.Keys == NameSet(st.arguments) == st.schemas.Keys
    && |st.definitions| == st.arguments
    && forall i :: 0 <= i < |st.definitions| ==>
         && st.definitions[i].name == VariableName(i)
         && st.definitions[i].name in st.schemas
         && st.schemas[st.definitions[i].name] == st.definitions[i].ty
  }

  /** Later states only add: no variable is ever reassigned or retyped. */
  ghost predicate Extends(before: State, after: State) {
    && before.arguments <= after.arguments
    && before.definitions <= after.definitions
    && Submap(before.variables, after.variables)
  }

  ghost predicate Submap(a: Variables, b: Variables) {
    forall k :: k in a ==> k in b && b[k] == a[k]
  }

  lemma ExtendsTransitive(a: State, b: State, c: State)
    requires Extends(a, b) && Extends(b, c)
    ensures Extends(a, c)
  {
  }

  lemma NamesSplit(a: nat, b: nat, c: nat)
    requires a <= b <= c
    ensures VariableNames(a, c) == VariableNames(a, b) + VariableNames(b, c)
  {
  }

  // ---------------------------------------------------------------- page arguments

  function LowerChar(c: char): char {
    if 'A' <= c <= 'Z' then (c as int + 32) as char else c
  }

  function Lower(s: string): string {
    seq(|s|, i requires 0 <= i < |s| => LowerChar(s[i]))
  }

  predicate EqIgnoreCase(a: string, b: string) {
    Lower(a) == Lower(b)
  }

  /** `is_page_argument`. */
  predicate IsPageArgument(types: Types, input: SchemaInput) {
    && (|| EqIgnoreCase(input.name, "page") || EqIgnoreCase(input.name, "pagination")
        || EqIgnoreCase(input.name, "window") || EqIgnoreCase(input.name, "limit")
        || EqIgnoreCase(input.name, "first") || EqIgnoreCase(input.name, "groupLimit"))
    && var base := input.ty.Base();
       base == "Int" || (base in types && types[base].InputObjectType?)
  }

  function PageArguments(types: Types, inputs: seq<SchemaInput>): (r: seq<SchemaInput>)
    ensures forall c :: c in r ==> c in inputs && IsPageArgument(types, c)
  {
    if inputs == [] then []
    else (if IsPageArgument(types, inputs[0]) then [inputs[0]] else []) + PageArguments(types, inputs[1..])
  }

  function SizeField(inputs: seq<SchemaInput>): Option<string> {
    if inputs == [] then None
    else if EqIgnoreCase(inputs[0].name, "limit") || EqIgnoreCase(inputs[0].name, "first") then Some(inputs[0].name)
    else SizeField(inputs[1..])
  }

  /** `inject_page_limit`: writes the server-owned bound into the only page argument. */
  function InjectPageLimit(types: Types, inputs: seq<SchemaInput>, values: map<string, Json>, maximum: u32)
    : Result<map<string, Json>, CompileError>
  {
    var candidates := PageArguments(types, inputs);
    if |candidates| != 1 then Err(NoUniquePageArgument)
    else
      var page := candidates[0];
      var base := page.ty.Base();
      if base == "Int" then
        if page.name in values then Err(PageSizeIsServerOwned)
        else Ok(values[page.name := JNumber(maximum as real)])
      else if !(base in types && types[base].InputObjectType?) then Err(PageArgumentShape)
      else
        var size := SizeField(types[base].inputs);
        if size.None? then Err(PageArgumentShape)
        else
          var current := if page.name in values then values[page.name] else JObject([]);
          if !current.JObject? then Err(PageArgumentShape)
          else if Get(current.entries, size.value).Some? then Err(PageSizeIsServerOwned)
          else Ok(values[page.name := JObject(current.entries + [Entry(size.value, JNumber(maximum as real))])])
  }

  /** The argument values bound the page size by `n`. */
  ghost predicate CarriesLimit(types: Types, inputs: seq<SchemaInput>, values: map<string, Json>, n: nat) {
    var candidates := PageArguments(types, inputs);
    && |candidates| == 1
    && candidates[0].name in values
    && var page, base := values[candidates[0].name], candidates[0].ty.Base();
       if base == "Int" then page == JNumber(n as real)
       else
         && base in types && types[base].InputObjectType? && SizeField(types[base].inputs).Some?
         && page.JObject? && Get(page.entries, SizeField(types[base].inputs).value) == Some(JNumber(n as real))
  }

  lemma {:induction false} GetAppended(entries: seq<Entry>, key: string, value: Json)
    requires Get(entries, key).None?
    ensures Get(entries + [Entry(key, value)], key) == Some(value)
  {
    if entries != [] {
      assert (entries + [Entry(key, value)])[1..] == entries[1..] + [Entry(key, value)];
      GetAppended(entries[1..], key, value);
    }
  }

  /** What injection adds to the supplied arguments, and nothing else. */
  ghost predicate InjectsOnly(
    types: Types, inputs: seq<SchemaInput>, supplied: map<string, Json>, values: map<string, Json>, n: nat)
  {
    var candidates := PageArguments(types, inputs);
    && |candidates| == 1
    && CarriesLimit(types, inputs, values, n)
    && values.Keys == supplied.Keys + {candidates[0].name}
    && (forall k :: k in supplied && k != candidates[0].name ==> values[k] == supplied[k])
    && (candidates[0].name in supplied ==>
          && candidates[0].ty.Base() != "Int"
          && supplied[candidates[0].name].JObject? && values[candidates[0].name].JObject?
          && supplied[candidates[0].name].entries <= values[candidates[0].name].entries
          && |values[candidates[0].name].entries| == |supplied[candidates[0].name].entries| + 1)
  }

  lemma InjectionCarriesLimit(types: Types, inputs: seq<SchemaInput>, values: map<string, Json>, maximum: u32)
    requires InjectPageLimit(types, inputs, values, maximum).Ok?
    ensures InjectsOnly(types, inputs, values, InjectPageLimit(types, inputs, values, maximum).value, maximum)
  {
    var page := PageArguments(types, inputs)[0];
    var base := page.ty.Base();
    if base != "Int" {
      var size := SizeField(types[base].inputs).value;
      var current := if page.name in values then values[page.name] else JObject([]);
      GetAppended(current.entries, size, JNumber(maximum as real));
    }
  }

  // ---------------------------------------------------------------- binding

  /** Lifts one argument into the next variable. */
  function Bind(st: State, ty: Type, value: Json): State {
    var variable := VariableName(|st.variables|);
    State(st.variables[variable := value], st.definitions + [Definition(variable, ty)],
          st.schemas[variable := ty], st.selectedFields, st.arguments + 1)
  }

  function BindArguments(validators: Validators, st: State, inputs: seq<SchemaInput>, values: map<string, Json>)
    : Result<(State, seq<Argument>), CompileError>
    decreases |inputs|
  {
    if inputs == [] then Ok((st, []))
    else
      var input := inputs[0];
      if input.name !in values then
        if input.ty.nonNull && !input.hasDefault then Err(MissingArgument)
        else BindArguments(validators, st, inputs[1..], values)
      else if !validators.admits(input.ty, values[input.name]) then Err(InvalidArgument)
      else
        var rest :- BindArguments(validators, Bind(st, input.ty, values[input.name]), inputs[1..], values);
        Ok((rest.0, [Argument(input.name, Variable(VariableName(|st.variables|)))] + rest.1))
  }

  predicate AllPrevalid(validators: Validators, inputs: seq<SchemaInput>, supplied: map<string, Json>) {
    forall i :: 0 <= i < |inputs| && inputs[i].name in supplied ==>
      validators.prevalid(inputs[i].ty, supplied[inputs[i].name])
  }

  function InputNames(inputs: seq<SchemaInput>): set<string> {
    set i | 0 <= i < |inputs| :: inputs[i].name
  }

  /** The argument map that is bound: the supplied one, with the server bound where one is injected. */
  function BoundValues(types: Types, inputs: seq<SchemaInput>, supplied: map<string, Json>,
                       maximumItems: Option<u32>, injectBound: bool): Result<map<string, Json>, CompileError>
  {
    if maximumItems.Some? && injectBound then InjectPageLimit(types, inputs, supplied, maximumItems.value)
    else Ok(supplied)
  }

  /** `compile_arguments`. */
  function CompileArguments(
    types: Types, limits: Limits, validators: Validators, st: State, inputs: seq<SchemaInput>,
    supplied: map<string, Json>, maximumItems: Option<u32>, expectBound: bool, injectBound: bool)
    : Result<(State, seq<Argument>), CompileError>
  {
    if expectBound != maximumItems.Some? then Err(BoundMissingOrUnexpected)
    else if maximumItems.Some? && (maximumItems.value == 0 || maximumItems.value > limits.maximumListItems
                                   || maximumItems.value > limits.maximumResultRecords) then Err(BoundExceedsLimits)
    else if !AllPrevalid(validators, inputs, supplied) then Err(InvalidArgument)
    else
      var values :- BoundValues(types, inputs, supplied, maximumItems, injectBound);
      if !(values.Keys <= InputNames(inputs)) then Err(UnknownArgument)
      else BindArguments(validators, st, inputs, values)
  }

  /** Names of the variables an argument list uses, in document order. */
  function UsedIn(arguments: seq<Argument>): seq<string> {
    if arguments == [] then []
    else (if arguments[0].value.Variable? then [arguments[0].value.name] else []) + UsedIn(arguments[1..])
  }

  lemma BindIsConsistent(st: State, ty: Type, value: Json)
    requires Consistent(st)
    ensures Consistent(Bind(st, ty, value)) && Extends(st, Bind(st, ty, value))
    ensures |st.variables| == st.arguments
    ensures VariableName(st.arguments) in Bind(st, ty, value).variables
    ensures Bind(st, ty, value).variables[VariableName(st.arguments)] == value
  {
    NameSetMembers(st.arguments, st.arguments);
    assert |st.variables.Keys| == st.arguments;
    var after := Bind(st, ty, value);
    assert after.variables.Keys == NameSet(st.arguments) + {VariableName(st.arguments)};
    forall i | 0 <= i < |after.definitions|
      ensures after.definitions[i].name == VariableName(i)
      ensures after.definitions[i].name in after.schemas
        && after.schemas[after.definitions[i].name] == after.definitions[i].ty
    {
      VariableNameInjective(i, st.arguments);
    }
  }

  /** Binding uses fresh consecutive variables, each exactly once. */
  lemma {:induction false} BindingIsFresh(
    validators: Validators, st: State, inputs: seq<SchemaInput>, values: map<string, Json>)
    requires Consistent(st) && BindArguments(validators, st, inputs, values).Ok?
    ensures var (after, arguments) := BindArguments(validators, st, inputs, values).value;
            && Consistent(after) && Extends(st, after) && after.selectedFields == st.selectedFields
            && UsedIn(arguments) == VariableNames(st.arguments, after.arguments)
    decreases |inputs|
  {
    if inputs != [] {
      var input, rest := inputs[0], inputs[1..];
      if input.name !in values {
        BindingIsFresh(validators, st, rest, values);
      } else {
        var bound := Bind(st, input.ty, values[input.name]);
        BindIsConsistent(st, input.ty, values[input.name]);
        BindingIsFresh(validators, bound, rest, values);
        var (after, others) := BindArguments(validators, bound, rest, values).value;
        var first := Argument(input.name, Variable(VariableName(st.arguments)));
        assert ([first] + others)[1..] == others;
        assert UsedIn([first] + others) == [VariableName(st.arguments)] + UsedIn(others);
        ExtendsTransitive(st, bound, after);
        NamesSplit(st.arguments, st.arguments + 1, after.arguments);
        assert VariableNames(st.arguments, st.arguments + 1) == [VariableName(st.arguments)];
      }
    }
  }

  /** Every written argument is a variable declared with the type of the input it is written for. */
  lemma {:induction false} BindingIsTyped(
    validators: Validators, st: State, inputs: seq<SchemaInput>, values: map<string, Json>)
    requires Consistent(st) && BindArguments(validators, st, inputs, values).Ok?
    ensures var (after, arguments) := BindArguments(validators, st, inputs, values).value;
      forall a :: a in arguments ==> Typed(a, inputs, after)
    decreases |inputs|
  {
    if inputs != [] {
      var input, rest := inputs[0], inputs[1..];
      if input.name !in values {
        BindingIsTyped(validators, st, rest, values);
      } else {
        var bound := Bind(st, input.ty, values[input.name]);
        BindIsConsistent(st, input.ty, values[input.name]);
        BindingIsTyped(validators, bound, rest, values);
        BindingIsFresh(validators, bound, rest, values);
        var (after, others) := BindArguments(validators, bound, rest, values).value;
        assert after.definitions[st.arguments] == bound.definitions[st.arguments];
        assert Typed(Argument(input.name, Variable(VariableName(st.arguments))), inputs, after);
        assert forall a :: a in others && Typed(a, rest, after) ==> Typed(a, inputs, after);
      }
    }
  }

  ghost predicate Typed(a: Argument, inputs: seq<SchemaInput>, st: State) {
    a.value.Variable? && exists input, i ::
      input in inputs && input.name == a.name && 0 <= i < |st.definitions|
        && st.definitions[i] == Definition(a.value.name, input.ty)
  }

  function Restrict(values: map<string, Json>, names: set<string>): map<string, Json> {
    map k | k in values && k in names :: values[k]
  }

  lemma RestrictCons(values: map<string, Json>, input: SchemaInput, rest: seq<SchemaInput>)
    ensures InputNames([input] + rest) == InputNames(rest) + {input.name}
    ensures Restrict(values, InputNames([input] + rest)) ==
            if input.name in values then Restrict(values, InputNames(rest))[input.name := values[input.name]]
            else Restrict(values, InputNames(rest))
  {
    var all := [input] + rest;
    assert forall i :: 1 <= i < |all| ==> all[i] == rest[i - 1];
    assert forall i :: 0 <= i < |rest| ==> rest[i] == all[i + 1];
    assert all[0] == input;
  }

  /** Substituting the variables gives back the values that were bound. */
  lemma {:induction false} BindingRestores(
    validators: Validators, st: State, inputs: seq<SchemaInput>, values: map<string, Json>, vars: Variables)
    requires Consistent(st) && BindArguments(validators, st, inputs, values).Ok?
    requires Submap(BindArguments(validators, st, inputs, values).value.0.variables, vars)
    ensures ArgumentValues(BindArguments(validators, st, inputs, values).value.1, vars)
      == Restrict(values, InputNames(inputs))
    decreases |inputs|
  {
    if inputs == [] {
    } else {
      var input, rest := inputs[0], inputs[1..];
      RestrictCons(values, input, rest);
      assert inputs == [input] + rest;
      if input.name !in values {
        BindingRestores(validators, st, rest, values, vars);
      } else {
        var bound := Bind(st, input.ty, values[input.name]);
        BindIsConsistent(st, input.ty, values[input.name]);
        BindingRestores(validators, bound, rest, values, vars);
        BindingIsFresh(validators, bound, rest, values);
        var arguments := BindArguments(validators, st, inputs, values).value.1;
        assert arguments[1..] == BindArguments(validators, bound, rest, values).value.1;
        assert arguments[0] == Argument(input.name, Variable(VariableName(st.arguments)));
      }
    }
  }

  /** Success of argument compilation does not depend on what was compiled before. */
  lemma {:induction false} BindingSuccessIsStateless(
    validators: Validators, a: State, b: State, inputs: seq<SchemaInput>, values: map<string, Json>)
    ensures BindArguments(validators, a, inputs, values).Ok? <==> BindArguments(validators, b, inputs, values).Ok?
    decreases |inputs|
  {
    if inputs != [] {
      var input := inputs[0];
      if input.name !in values {
        BindingSuccessIsStateless(validators, a, b, inputs[1..], values);
      } else {
        BindingSuccessIsStateless(validators, Bind(a, input.ty, values[input.name]),
          Bind(b, input.ty, values[input.name]), inputs[1..], values);
      }
    }
  }

  /** The arguments a resolver receives: the plan's own, plus the bound wherever it is injected. */
  ghost predicate Delivers(
    types: Types, inputs: seq<SchemaInput>, supplied: map<string, Json>, maximumItems: Option<u32>, injectBound: bool,
    delivered: map<string, Json>)
  {
    if maximumItems.Some? && injectBound then InjectsOnly(types, inputs, supplied, delivered, maximumItems.value)
    else delivered == supplied
  }

  lemma ArgumentsAreLifted(
    types: Types, limits: Limits, validators: Validators, st: State, inputs: seq<SchemaInput>,
    supplied: map<string, Json>, maximumItems: Option<u32>, expectBound: bool, injectBound: bool, vars: Variables)
    requires Consistent(st)
    requires CompileArguments(types, limits, validators, st, inputs, supplied, maximumItems, expectBound,
      injectBound).Ok?
    requires Submap(CompileArguments(types, limits, validators, st, inputs, supplied, maximumItems, expectBound,
      injectBound).value.0.variables, vars)
    ensures var (after, arguments) := CompileArguments(types, limits, validators, st, inputs, supplied, maximumItems,
      expectBound, injectBound).value;
            && Consistent(after) && Extends(st, after) && after.selectedFields == st.selectedFields
            && UsedIn(arguments) == VariableNames(st.arguments, after.arguments)
            && Delivers(types, inputs, supplied, maximumItems, injectBound, ArgumentValues(arguments, vars))
    ensures expectBound == maximumItems.Some?
    ensures maximumItems.Some? ==> 0 < maximumItems.value
  {
    var values := BoundValues(types, inputs, supplied, maximumItems, injectBound).value;
    if maximumItems.Some? && injectBound {
      InjectionCarriesLimit(types, inputs, supplied, maximumItems.value);
    }
    BindingIsFresh(validators, st, inputs, values);
    BindingRestores(validators, st, inputs, values, vars);
    assert Restrict(values, InputNames(inputs)) == values;
  }
}
