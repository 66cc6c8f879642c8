/** The cheapest arguments and the least bound that a field can be given. */
module LeastOptions {
  import opened Common
  import opened JsonModel
  import opened TypeText
  import opened Schema
  import opened Plans
  import opened Arguments
  import opened Compiler
  import opened Heads

  // ---------------------------------------------------------------- how many arguments are delivered

  /** Inputs that must be served. */
  ghost function Required(inputs: seq<SchemaInput>): set<string> {
    set i | 0 <= i < |inputs| && inputs[i].ty.nonNull && !inputs[i].hasDefault :: inputs[i].name
  }

  /** Inputs into which the compiler writes the bound. */
  ghost function Injected(types: Types, inputs: seq<SchemaInput>, paged: bool): set<string> {
    set i | paged && 0 <= i < |inputs| && IsPageArgument(types, inputs[i]) :: inputs[i].name
  }

  /** How many variables one argument list takes. */
  ghost function ArgumentCount(types: Types, inputs: seq<SchemaInput>, paged: bool, supplied: map<string, Json>): nat {
    |supplied.Keys + Injected(types, inputs, paged)|
  }

  ghost function LeastArguments(types: Types, inputs: seq<SchemaInput>, paged: bool): nat {
    |Required(inputs) + Injected(types, inputs, paged)|
  }

  lemma OnlyPageIsInjected(types: Types, inputs: seq<SchemaInput>, i: nat)
    requires OnlyPage(types, inputs, i)
    ensures Injected(types, inputs, true) == {inputs[i].name} && Injected(types, inputs, false) == {}
  {
  }

  // ---------------------------------------------------------------- the least bound

  /** Some admitted value of the page argument carries the bound `n`. */
  ghost predicate AdmitsSize(cap: Capability, inputs: seq<SchemaInput>, n: u32) {
    exists i: nat, entries: seq<Entry> ::
      OnlyPage(cap.types, inputs, i) && CarriesSize(cap.types, inputs[i]) && PageWith(cap, inputs[i], n, entries)
  }

  ghost function LeastFrom(cap: Capability, inputs: seq<SchemaInput>, n: u32): u32
    decreases U32_MAX - n
  {
    if n == U32_MAX || AdmitsSize(cap, inputs, n) then n else LeastFrom(cap, inputs, n + 1)
  }

  ghost function LeastSize(cap: Capability, inputs: seq<SchemaInput>): u32 {
    LeastFrom(cap, inputs, 0)
  }

  lemma {:induction false} LeastFromIsLeast(cap: Capability, inputs: seq<SchemaInput>, from: u32, n: u32)
    requires from <= n && AdmitsSize(cap, inputs, n)
    ensures from <= LeastFrom(cap, inputs, from) <= n && AdmitsSize(cap, inputs, LeastFrom(cap, inputs, from))
    decreases n - from
  {
    if !AdmitsSize(cap, inputs, from) {
      LeastFromIsLeast(cap, inputs, from + 1, n);
    }
  }

  lemma PagedHasSize(cap: Capability, inputs: seq<SchemaInput>, supplied: map<string, Json>, n: u32, i: nat)
    requires WithinBounds(cap.limits, n) && PagedArgumentsOk(cap, inputs, supplied, n, i)
    ensures AdmitsSize(cap, inputs, n)
  {
    var page := inputs[i];
    var v := PageValue(cap.types, page, supplied, n).value;
    assert InputOk(cap.validators, page, Lookup(supplied[page.name := v], page.name));
    var entries := if page.name in supplied && supplied[page.name].JObject? then supplied[page.name].entries else [];
    assert PageWith(cap, page, n, entries);
  }

  /** No options in order take fewer arguments or a smaller bound. */
  lemma OptionsCostAtLeast(
    cap: Capability, inputs: seq<SchemaInput>, paged: bool, supplied: map<string, Json>, maximumItems: Option<u32>)
    requires OptionsOk(cap, inputs, paged, supplied, maximumItems)
    ensures LeastArguments(cap.types, inputs, paged) <= ArgumentCount(cap.types, inputs, paged, supplied)
    ensures paged ==> 0 < LeastSize(cap, inputs) <= maximumItems.value
  {
    hide PageWith, PageValue, CarriesSize, AllPrevalid;
    if paged {
      var n := maximumItems.value;
      var i: nat :| PagedArgumentsOk(cap, inputs, supplied, n, i);
      PagedHasSize(cap, inputs, supplied, n, i);
      LeastFromIsLeast(cap, inputs, 0, n);
      SizesArePositive(cap, inputs, LeastSize(cap, inputs));
      OnlyPageIsInjected(cap.types, inputs, i);
      var v := PageValue(cap.types, inputs[i], supplied, n).value;
      RequiredAreServed(cap.validators, inputs, supplied[inputs[i].name := v]);
    } else {
      RequiredAreServed(cap.validators, inputs, supplied);
    }
    SubsetSmaller(Required(inputs) + Injected(cap.types, inputs, paged),
                  supplied.Keys + Injected(cap.types, inputs, paged));
  }

  lemma SizesArePositive(cap: Capability, inputs: seq<SchemaInput>, n: u32)
    requires AdmitsSize(cap, inputs, n)
    ensures WithinBounds(cap.limits, n)
  {
  }

  lemma RequiredAreServed(validators: Validators, inputs: seq<SchemaInput>, values: map<string, Json>)
    requires forall i :: 0 <= i < |inputs| ==> InputOk(validators, inputs[i], Lookup(values, inputs[i].name))
    ensures Required(inputs) <= values.Keys
  {
    forall name | name in Required(inputs) ensures name in values {
      var i :| 0 <= i < |inputs| && inputs[i].ty.nonNull && !inputs[i].hasDefault && inputs[i].name == name;
      assert InputOk(validators, inputs[i], Lookup(values, inputs[i].name));
    }
  }

  // ---------------------------------------------------------------- the least is attained

  /** One admitted value for every required input outside `owned`, and nothing else. */
  lemma {:induction false} RequiredValues(validators: Validators, inputs: seq<SchemaInput>, owned: set<string>)
    returns (supplied: map<string, Json>)
    requires DistinctInputNames(inputs) && RequiredAdmitted(validators, inputs, owned)
    ensures supplied.Keys <= InputNames(inputs) && supplied.Keys == Required(inputs) - owned
    ensures AllPrevalid(validators, inputs, supplied)
    ensures forall i :: 0 <= i < |inputs| && inputs[i].name !in owned ==>
      InputOk(validators, inputs[i], Lookup(supplied, inputs[i].name))
    decreases |inputs|
  {
    hide Required, DistinctInputNames, InputNames;
    if inputs == [] {
      supplied := map[];
      NoRequired();
    } else {
      var input, rest := inputs[0], inputs[1..];
      assert inputs == [input] + rest;
      assert forall i :: 1 <= i < |inputs| ==> inputs[i] == rest[i - 1];
      InputTail(inputs);
      RequiredTail(validators, inputs, owned);
      RequiredCons(input, rest);
      RequiredAreNamed(rest);
      supplied := RequiredValues(validators, rest, owned);
      if input.name !in owned && input.ty.nonNull && !input.hasDefault {
        assert HasAdmittedValue(validators, inputs[0]);
        var v: Json :| validators.prevalid(input.ty, v) && validators.admits(input.ty, v);
        supplied := supplied[input.name := v];
      }
    }
  }

  lemma NoRequired()
    ensures Required([]) == {}
  {
  }

  lemma RequiredAreNamed(inputs: seq<SchemaInput>)
    ensures Required(inputs) <= InputNames(inputs)
  {
  }

  lemma RequiredTail(validators: Validators, inputs: seq<SchemaInput>, owned: set<string>)
    requires inputs != [] && RequiredAdmitted(validators, inputs, owned)
    ensures RequiredAdmitted(validators, inputs[1..], owned)
  {
    assert forall i :: 0 <= i < |inputs[1..]| ==> inputs[1..][i] == inputs[i + 1];
  }

  lemma InputTail(inputs: seq<SchemaInput>)
    requires inputs != [] && DistinctInputNames(inputs)
    ensures DistinctInputNames(inputs[1..]) && inputs[0].name !in InputNames(inputs[1..])
    ensures InputNames(inputs) == InputNames(inputs[1..]) + {inputs[0].name}
    ensures forall i :: 1 <= i < |inputs| ==> inputs[i].name in InputNames(inputs[1..])
  {
    var rest := inputs[1..];
    assert forall i :: 0 <= i < |rest| ==> rest[i] == inputs[i + 1];
    assert forall i :: 1 <= i < |inputs| ==> inputs[i] == rest[i - 1];
  }

  lemma RequiredCons(input: SchemaInput, rest: seq<SchemaInput>)
    ensures Required([input] + rest)
      == Required(rest) + if input.ty.nonNull && !input.hasDefault then {input.name} else {}
  {
    var all := [input] + rest;
    assert all[0] == input && forall i :: 0 <= i < |rest| ==> rest[i] == all[i + 1];
    assert forall i :: 1 <= i < |all| ==> all[i] == rest[i - 1];
  }

  lemma PagedValues(cap: Capability, inputs: seq<SchemaInput>, i: nat, n: u32, entries: seq<Entry>)
    returns (supplied: map<string, Json>)
    requires DistinctInputNames(inputs) && PageCallable(cap, inputs, i) && PageWith(cap, inputs[i], n, entries)
    ensures WithinBounds(cap.limits, n) && PagedArgumentsOk(cap, inputs, supplied, n, i)
    ensures supplied.Keys + {inputs[i].name} == Required(inputs) + {inputs[i].name}
  {
    var page := inputs[i];
    var others := RequiredValues(cap.validators, inputs, {page.name});
    supplied := if page.ty.Base() == "Int" || entries == [] then others else others[page.name := JObject(entries)];
    var v := PageValue(cap.types, page, supplied, n).value;
    var values := supplied[page.name := v];
    PageNameIsKnown(cap.types, inputs, i, others, JObject(entries));
    forall j | 0 <= j < |inputs| ensures InputOk(cap.validators, inputs[j], Lookup(values, inputs[j].name)) {
      if inputs[j].name != page.name {
        assert InputOk(cap.validators, inputs[j], Lookup(others, inputs[j].name));
      }
    }
    assert AllPrevalid(cap.validators, inputs, supplied);
  }

  /** Where any options are in order, some take the fewest arguments and the least bound at once. */
  lemma LeastOptionsExist(cap: Capability, inputs: seq<SchemaInput>, paged: bool)
    returns (supplied: map<string, Json>, maximumItems: Option<u32>)
    requires DistinctInputNames(inputs) && OptionsExist(cap, inputs, paged)
    ensures OptionsOk(cap, inputs, paged, supplied, maximumItems)
    ensures ArgumentCount(cap.types, inputs, paged, supplied) == LeastArguments(cap.types, inputs, paged)
    ensures maximumItems == if paged then Some(LeastSize(cap, inputs)) else None
  {
    hide ArgumentsOk, PagedArgumentsOk, PageWith, CarriesSize, RequiredAdmitted, AllPrevalid, LeastFrom;
    if paged {
      var i: nat :| PageCallable(cap, inputs, i);
      var n: u32, entries: seq<Entry> :| PageWith(cap, inputs[i], n, entries);
      assert AdmitsSize(cap, inputs, n);
      LeastFromIsLeast(cap, inputs, 0, n);
      var least := LeastSize(cap, inputs);
      var j: nat, chosen: seq<Entry> :|
        OnlyPage(cap.types, inputs, j) && CarriesSize(cap.types, inputs[j]) && PageWith(cap, inputs[j], least, chosen);
      assert j == i;
      supplied := PagedValues(cap, inputs, i, least, chosen);
      maximumItems := Some(least);
      OnlyPageIsInjected(cap.types, inputs, i);
    } else {
      supplied := RequiredValues(cap.validators, inputs, {});
      maximumItems := None;
      AllServed(cap.validators, inputs, supplied);
      assert Injected(cap.types, inputs, false) == {};
      assert supplied.Keys == Required(inputs);
    }
  }

  /** A callable relationship has such options, under which its head is in order whatever is selected below it. */
  lemma CallableHasOptions(cap: Capability, entityName: string, f: Field)
    returns (supplied: map<string, Json>, maximumItems: Option<u32>)
    requires WellFormedTypes(cap.types) && Callable(cap, entityName, f)
    ensures var inputs, paged := ObjectField(cap.types, entityName, f.name).value.arguments,
                                 IsPageable(f.relationship.value);
      && ArgumentCount(cap.types, inputs, paged, supplied) == LeastArguments(cap.types, inputs, paged)
      && maximumItems == if paged then Some(LeastSize(cap, inputs)) else None
    ensures forall plan: Plan :: plan.arguments == supplied && plan.maximumItems == maximumItems ==>
      HeadOk(cap, entityName, f, plan)
  {
    hide RouteWithin, OptionsOk, OptionsExist, ArgumentCount, LeastArguments, LeastSize;
    var actual := ObjectField(cap.types, entityName, f.name).value;
    assert actual in cap.types[entityName].fields;
    supplied, maximumItems := LeastOptionsExist(cap, actual.arguments, IsPageable(f.relationship.value));
  }

  lemma AllServed(validators: Validators, inputs: seq<SchemaInput>, supplied: map<string, Json>)
    requires supplied.Keys <= InputNames(inputs) && AllPrevalid(validators, inputs, supplied)
    requires forall i :: 0 <= i < |inputs| ==> InputOk(validators, inputs[i], Lookup(supplied, inputs[i].name))
    ensures ArgumentsOk(validators, inputs, supplied, supplied)
  {
  }

  // ---------------------------------------------------------------- the compiler counts what is delivered

  lemma {:induction false} BindingIsCounted(
    validators: Validators, st: State, inputs: seq<SchemaInput>, values: map<string, Json>)
    requires DistinctInputNames(inputs) && BindArguments(validators, st, inputs, values).Ok?
    ensures var after := BindArguments(validators, st, inputs, values).value.0;
      && after.selectedFields == st.selectedFields
      && after.arguments == st.arguments + |values.Keys * InputNames(inputs)|
    decreases |inputs|
  {
    hide DistinctInputNames, InputNames, VariableName;
    if inputs == [] {
      NoneNamed(values);
    } else {
      var input, rest := inputs[0], inputs[1..];
      InputTail(inputs);
      NamedCount(values.Keys, InputNames(rest), input.name);
      if input.name !in values {
        BindingIsCounted(validators, st, rest, values);
      } else {
        BindingIsCounted(validators, Bind(st, input.ty, values[input.name]), rest, values);
      }
    }
  }

  lemma NoneNamed(values: map<string, Json>)
    ensures |values.Keys * InputNames([])| == 0
  {
    assert values.Keys * InputNames([]) == {};
  }

  lemma NamedCount(keys: set<string>, names: set<string>, name: string)
    requires name !in names
    ensures keys * (names + {name}) == keys * names + if name in keys then {name} else {}
    ensures |keys * (names + {name})| == |keys * names| + if name in keys then 1 else 0
  {
    assert keys * (names + {name}) == keys * names + if name in keys then {name} else {};
  }

  /** One argument list takes exactly as many variables as it delivers values, and no selected field. */
  lemma ArgumentsAreCounted(
    cap: Capability, st: State, inputs: seq<SchemaInput>, paged: bool, inject: bool, supplied: map<string, Json>,
    maximumItems: Option<u32>)
    requires DistinctInputNames(inputs) && (paged ==> inject)
    requires CompileArguments(cap.types, cap.limits, cap.validators, st, inputs, supplied, maximumItems, paged,
               inject).Ok?
    ensures var after := CompileArguments(cap.types, cap.limits, cap.validators, st, inputs, supplied, maximumItems,
                           paged, inject).value.0;
      && after.selectedFields == st.selectedFields
      && after.arguments == st.arguments + ArgumentCount(cap.types, inputs, paged, supplied)
    ensures maximumItems.Some? <==> paged
    ensures paged ==> maximumItems.value > 0
  {
    hide InjectPageLimit, CarriesLimit, PageArguments, BindArguments, IsPageArgument;
    var values := BoundValues(cap.types, inputs, supplied, maximumItems, inject).value;
    BindingIsCounted(cap.validators, st, inputs, values);
    assert values.Keys * InputNames(inputs) == values.Keys;
    if paged {
      InjectionCarriesLimit(cap.types, inputs, supplied, maximumItems.value);
      var i := ListedIsOnlyPage(cap.types, inputs);
      OnlyPageIsListed(cap.types, inputs, i);
      OnlyPageIsInjected(cap.types, inputs, i);
    } else {
      assert Injected(cap.types, inputs, false) == {};
    }
    assert values.Keys == supplied.Keys + Injected(cap.types, inputs, paged);
  }
}
