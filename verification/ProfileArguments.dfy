/**
 * Profile argument adapters: how they are rendered into a document, the variable types that are inferred from the
 * positions the variables stand in, and what every rendered argument list satisfies. Rendering succeeds exactly on
 * adapters that fit the schema and use each variable at one type.
 */
module ProfileArguments {
  import opened Common
  import opened JsonModel
  import opened TypeText
  import opened Schema
  import opened Execution

  const MAXIMUM_PROJECTION_DEPTH: nat := 8
  const MAXIMUM_PROFILE_INPUTS: nat := 64

  /** `AiGraphqlArgumentValue`; an adapter object lists its fields in key order. */
  datatype Adapter =
    | Input(name: string)
    | Fixed(value: Json)
    | ObjectAdapter(fields: seq<ArgumentPlan>)
    | ListAdapter(items: seq<Adapter>)

  datatype ArgumentPlan = ArgumentPlan(name: string, value: Adapter)

  datatype ProfileError =
    | InvalidArgument
    | InvalidProjection
    | InvalidInputs
    | InvalidProfile
    | DisclosureMismatch

  /** `validate_graphql_name`: a GraphQL name that is bounded and not reserved. */
  predicate SafeName(s: string) {
    ValidName(s) && |s| <= 256 && !("__" <= s)
  }

  /** `named_type` of this compiler, which refuses lists. */
  function PlainType(ty: Type): Option<string> {
    if ty.Named? && SafeName(ty.name) then Some(ty.name) else None
  }

  function InputFields(types: Types, ty: Type): Option<seq<SchemaInput>> {
    match PlainType(ty)
    case Some(name) =>
      if name in types && types[name].InputObjectType? then Some(types[name].inputs) else None
    case None => None
  }

  // ---------------------------------------------------------------- what is admitted

  /** The names of an argument list: bounded, distinct, known, and none that is required missing. */
  ghost predicate FitsNames(schema: seq<SchemaInput>, names: seq<string>) {
    && |names| <= MAXIMUM_PROFILE_INPUTS
    && Distinct(names)
    && (forall i :: 0 <= i < |names| ==> SafeName(names[i]) && FindInput(schema, names[i]).Some?)
    && (forall s :: s in schema && s.ty.nonNull && !s.hasDefault ==> s.name in names)
  }

  function PlanNames(plans: seq<ArgumentPlan>): seq<string> {
    seq(|plans|, i requires 0 <= i < |plans| => plans[i].name)
  }

  ghost predicate FitsArguments(types: Types, schema: seq<SchemaInput>, plans: seq<ArgumentPlan>, inputs: set<string>)
    decreases plans, 3
  {
    FitsNames(schema, PlanNames(plans)) && FitsEach(types, schema, plans, inputs)
  }

  ghost predicate FitsEach(types: Types, schema: seq<SchemaInput>, plans: seq<ArgumentPlan>, inputs: set<string>)
    decreases plans, 2
  {
    forall i :: 0 <= i < |plans| ==> FitsArgument(types, schema, plans[i], inputs)
  }

  ghost predicate FitsArgument(types: Types, schema: seq<SchemaInput>, plan: ArgumentPlan, inputs: set<string>)
    decreases plan, 1
  {
    var input := FindInput(schema, plan.name);
    input.Some? && FitsValue(types, input.value.ty, plan.value, inputs, 0)
  }

  ghost predicate FitsValue(types: Types, ty: Type, value: Adapter, inputs: set<string>, depth: nat)
    decreases value, 0
  {
    && depth <= MAXIMUM_PROJECTION_DEPTH
    && match value
       case Input(name) => SafeName(name) && name in inputs
       case Fixed(json) => FitsFixed(types, ty, json, depth)
       case ObjectAdapter(fields) =>
         InputFields(types, ty).Some? && FitsArguments(types, InputFields(types, ty).value, fields, inputs)
       case ListAdapter(items) =>
         ty.ListOf? && forall i :: 0 <= i < |items| ==> FitsValue(types, ty.item, items[i], inputs, depth + 1)
  }

  ghost predicate FitsFixed(types: Types, ty: Type, value: Json, depth: nat)
    decreases value
  {
    && depth <= MAXIMUM_PROJECTION_DEPTH
    && if value.JNull? then !ty.nonNull
       else if ty.ListOf? then
         value.JArray? && forall i :: 0 <= i < |value.items| ==> FitsFixed(types, ty.item, value.items[i], depth + 1)
       else if InputFields(types, ty).Some? then
         && value.JObject?
         && FitsNames(InputFields(types, ty).value, Keys(value.entries))
         && forall i :: 0 <= i < |value.entries| ==>
              FitsFixedField(types, InputFields(types, ty).value, value.entries[i])
       else PlainType(ty).Some? && FitsLeaf(types, PlainType(ty).value, value)
  }

  ghost predicate FitsFixedField(types: Types, schema: seq<SchemaInput>, e: Entry)
    decreases e
  {
    FindInput(schema, e.key).Some? && FitsFixed(types, FindInput(schema, e.key).value.ty, e.value, 0)
  }

  predicate IsI64(n: real) {
    n.Floor as real == n && -0x8000_0000_0000_0000 <= n.Floor <= 0x7FFF_FFFF_FFFF_FFFF
  }

  /** The enum branch of `render_fixed`, and `render_scalar`. */
  predicate FitsLeaf(types: Types, name: string, value: Json) {
    if name in types && !types[name].ScalarType? then
      types[name].EnumType? && value.JString? && value.s in types[name].values
    else
      match name
      case "String" => value.JString?
      case "ID" => value.JString?
      case "Int" => value.JNumber? && IsI64(value.n)
      case "Float" => value.JNumber?
      case "Boolean" => value.JBool?
      case _ => false
  }

  // ---------------------------------------------------------------- what is written

  function WrittenArguments(plans: seq<ArgumentPlan>): (r: seq<Argument>)
    ensures |r| == |plans|
    decreases plans, 0
  {
    if plans == [] then []
    else
      var n := |plans| - 1;
      WrittenArguments(plans[..n]) + [Argument(plans[n].name, Written(plans[n].value))]
  }

  function Written(value: Adapter): Value
    decreases value, 1
  {
    match value
    case Input(name) => Variable(name)
    case Fixed(json) => WrittenJson(json)
    case ObjectAdapter(fields) => ObjectValue(WrittenArguments(fields))
    case ListAdapter(items) => ListValue(WrittenItems(items))
  }

  function WrittenItems(items: seq<Adapter>): (r: seq<Value>)
    ensures |r| == |items|
    decreases items, 0
  {
    if items == [] then [] else WrittenItems(items[..|items| - 1]) + [Written(items[|items| - 1])]
  }

  function WrittenJson(json: Json): Value
    decreases json, 1
  {
    match json
    case JObject(entries) => ObjectValue(WrittenEntries(entries))
    case JArray(items) => ListValue(WrittenJsonItems(items))
    case _ => Literal(json)
  }

  function WrittenEntries(entries: seq<Entry>): (r: seq<Argument>)
    ensures |r| == |entries|
    decreases entries, 0
  {
    if entries == [] then []
    else
      var n := |entries| - 1;
      WrittenEntries(entries[..n]) + [Argument(entries[n].key, WrittenJson(entries[n].value))]
  }

  function WrittenJsonItems(items: seq<Json>): (r: seq<Value>)
    ensures |r| == |items|
    decreases items, 0
  {
    if items == [] then [] else WrittenJsonItems(items[..|items| - 1]) + [WrittenJson(items[|items| - 1])]
  }

  // ---------------------------------------------------------------- where variables stand

  /** A variable occurrence with the type of the position it stands in. */
  datatype Use = Use(name: string, ty: Type)

  ghost function ArgumentUses(types: Types, schema: seq<SchemaInput>, arguments: seq<Argument>): set<Use>
    decreases arguments, 0
  {
    if arguments == [] then {}
    else
      var last := arguments[|arguments| - 1];
      ArgumentUses(types, schema, arguments[..|arguments| - 1])
      + (if FindInput(schema, last.name).Some? then ValueUses(types, FindInput(schema, last.name).value.ty, last.value)
         else {})
  }

  ghost function ValueUses(types: Types, ty: Type, v: Value): set<Use>
    decreases v, 1
  {
    match v
    case Variable(name) => {Use(name, ty)}
    case Literal(_) => {}
    case ObjectValue(fields) =>
      if InputFields(types, ty).Some? then ArgumentUses(types, InputFields(types, ty).value, fields) else {}
    case ListValue(items) => if ty.ListOf? then ItemUses(types, ty.item, items) else {}
  }

  ghost function ItemUses(types: Types, item: Type, items: seq<Value>): set<Use>
    decreases items, 0
  {
    if items == [] then {}
    else ItemUses(types, item, items[..|items| - 1]) + ValueUses(types, item, items[|items| - 1])
  }

  /** No variable stands in positions of two types. */
  ghost predicate Consistent(uses: set<Use>) {
    forall a, b :: a in uses && b in uses && a.name == b.name ==> a == b
  }

  /** What an inferred type map records. */
  ghost function Recorded(inferred: map<string, Type>): set<Use> {
    set name | name in inferred :: Use(name, inferred[name])
  }

  lemma ConsistentPart(part: set<Use>, whole: set<Use>)
    requires part <= whole && Consistent(whole)
    ensures Consistent(part)
  {
  }

  lemma RecordsOne(inferred: map<string, Type>, name: string, ty: Type)
    ensures Consistent(Recorded(inferred) + {Use(name, ty)}) <==> (name in inferred ==> inferred[name] == ty)
    ensures name in inferred && inferred[name] == ty ==> Recorded(inferred) + {Use(name, ty)} == Recorded(inferred)
    ensures name !in inferred ==> Recorded(inferred[name := ty]) == Recorded(inferred) + {Use(name, ty)}
  {
    var all := Recorded(inferred) + {Use(name, ty)};
    if name in inferred {
      assert Use(name, inferred[name]) in all && Use(name, ty) in all;
    } else {
      var next := inferred[name := ty];
      forall u | u in all ensures u in Recorded(next) {
        assert u.name in next && next[u.name] == u.ty;
      }
    }
  }

  lemma RecordedIsConsistent(inferred: map<string, Type>)
    ensures Consistent(Recorded(inferred))
  {
  }

  // ---------------------------------------------------------------- values that are written as fixed

  /** Fixed values contain no variables. */
  lemma {:induction false} FixedUsesNothing(types: Types, ty: Type, json: Json)
    ensures ValueUses(types, ty, WrittenJson(json)) == {}
    decreases json, 1
  {
    match json
    case JObject(entries) =>
      if InputFields(types, ty).Some? {
        EntriesUseNothing(types, InputFields(types, ty).value, entries);
      }
    case JArray(items) =>
      if ty.ListOf? {
        JsonItemsUseNothing(types, ty.item, items);
      }
    case _ =>
  }

  lemma {:induction false} EntriesUseNothing(types: Types, schema: seq<SchemaInput>, entries: seq<Entry>)
    ensures ArgumentUses(types, schema, WrittenEntries(entries)) == {}
    decreases entries, 0
  {
    if entries != [] {
      var n := |entries| - 1;
      EntriesUseNothing(types, schema, entries[..n]);
      var written := WrittenEntries(entries);
      assert written[..|written| - 1] == WrittenEntries(entries[..n]);
      if FindInput(schema, entries[n].key).Some? {
        FixedUsesNothing(types, FindInput(schema, entries[n].key).value.ty, entries[n].value);
      }
    }
  }

  lemma {:induction false} JsonItemsUseNothing(types: Types, item: Type, items: seq<Json>)
    ensures ItemUses(types, item, WrittenJsonItems(items)) == {}
    decreases items, 0
  {
    if items != [] {
      var n := |items| - 1;
      JsonItemsUseNothing(types, item, items[..n]);
      var written := WrittenJsonItems(items);
      assert written[..|written| - 1] == WrittenJsonItems(items[..n]);
      FixedUsesNothing(types, item, items[n]);
    }
  }

  /** A fixed value arrives at the resolver as it was configured. */
  lemma {:induction false} FixedArrives(json: Json, vars: Variables)
    ensures Coerce(WrittenJson(json), vars) == Some(json)
    decreases json, 1
  {
    match json
    case JObject(entries) => EntriesArrive(entries, vars);
    case JArray(items) => JsonItemsArrive(items, vars);
    case _ =>
  }

  lemma {:induction false} EntriesArrive(entries: seq<Entry>, vars: Variables)
    ensures CoerceFields(WrittenEntries(entries), vars) == entries
    decreases entries, 0
  {
    if entries != [] {
      var n := |entries| - 1;
      EntriesArrive(entries[..n], vars);
      FixedArrives(entries[n].value, vars);
      CoerceFieldsSplit(WrittenEntries(entries[..n]), Argument(entries[n].key, WrittenJson(entries[n].value)), vars);
      assert entries == entries[..n] + [entries[n]];
    }
  }

  lemma {:induction false} CoerceFieldsSplit(fields: seq<Argument>, last: Argument, vars: Variables)
    ensures CoerceFields(fields + [last], vars) == CoerceFields(fields, vars) + CoerceFields([last], vars)
  {
    hide Coerce;
    if fields == [] {
      assert fields + [last] == [last];
    } else {
      CoerceFieldsSplit(fields[1..], last, vars);
      assert (fields + [last])[1..] == fields[1..] + [last];
    }
  }

  lemma {:induction false} JsonItemsArrive(items: seq<Json>, vars: Variables)
    ensures CoerceItems(WrittenJsonItems(items), vars) == items
    decreases items, 0
  {
    if items != [] {
      var n := |items| - 1;
      JsonItemsArrive(items[..n], vars);
      FixedArrives(items[n], vars);
      CoerceItemsSplit(WrittenJsonItems(items[..n]), WrittenJson(items[n]), vars);
      assert items == items[..n] + [items[n]];
    }
  }

  lemma {:induction false} CoerceItemsSplit(items: seq<Value>, last: Value, vars: Variables)
    ensures CoerceItems(items + [last], vars) == CoerceItems(items, vars) + CoerceItems([last], vars)
  {
    hide Coerce;
    if items == [] {
      assert items + [last] == [last];
    } else {
      CoerceItemsSplit(items[1..], last, vars);
      var all := items + [last];
      assert all[0] == items[0] && all[1..] == items[1..] + [last];
      var first := CoerceItems(items, vars)[..1];
      assert CoerceItems(items, vars) == first + CoerceItems(items[1..], vars);
      assert CoerceItems(all, vars) == first + CoerceItems(all[1..], vars);
    }
  }

  // ---------------------------------------------------------------- the rendered arguments are valid

  /** Section 5.4.2.1: every required argument is supplied, and not by a null literal; at every depth. */
  ghost predicate RequiredSupplied(types: Types, schema: seq<SchemaInput>, arguments: seq<Argument>)
    decreases arguments, 2
  {
    && (forall s :: s in schema && s.ty.nonNull && !s.hasDefault ==>
          exists i :: 0 <= i < |arguments| && arguments[i].name == s.name)
    && forall i :: 0 <= i < |arguments| ==> ArgumentSupplied(types, schema, arguments[i])
  }

  ghost predicate ArgumentSupplied(types: Types, schema: seq<SchemaInput>, argument: Argument)
    decreases argument, 1
  {
    var input := FindInput(schema, argument.name);
    input.Some? && ValueSupplied(types, input.value.ty, argument.value)
  }

  ghost predicate ValueSupplied(types: Types, ty: Type, v: Value)
    decreases v, 0
  {
    && (v == Literal(JNull) ==> !ty.nonNull)
    && match v
       case ObjectValue(fields) =>
         InputFields(types, ty).Some? && RequiredSupplied(types, InputFields(types, ty).value, fields)
       case ListValue(items) =>
         ty.ListOf? && forall i :: 0 <= i < |items| ==> ValueSupplied(types, ty.item, items[i])
       case _ => true
  }

  lemma {:induction false} WrittenArgumentAt(plans: seq<ArgumentPlan>, i: nat)
    requires i < |plans|
    ensures WrittenArguments(plans)[i] == Argument(plans[i].name, Written(plans[i].value))
    decreases |plans|
  {
    var n := |plans| - 1;
    if n > 0 {
      WrittenArgumentAt(plans[..n], if i < n then i else 0);
    }
  }

  lemma {:induction false} WrittenItemAt(items: seq<Adapter>, i: nat)
    requires i < |items|
    ensures WrittenItems(items)[i] == Written(items[i])
    decreases |items|
  {
    var n := |items| - 1;
    if n > 0 {
      WrittenItemAt(items[..n], if i < n then i else 0);
    }
  }

  lemma {:induction false} WrittenEntryAt(entries: seq<Entry>, i: nat)
    requires i < |entries|
    ensures WrittenEntries(entries)[i] == Argument(entries[i].key, WrittenJson(entries[i].value))
    decreases |entries|
  {
    var n := |entries| - 1;
    if n > 0 {
      WrittenEntryAt(entries[..n], if i < n then i else 0);
    }
  }

  lemma {:induction false} WrittenJsonItemAt(items: seq<Json>, i: nat)
    requires i < |items|
    ensures WrittenJsonItems(items)[i] == WrittenJson(items[i])
    decreases |items|
  {
    var n := |items| - 1;
    if n > 0 {
      WrittenJsonItemAt(items[..n], if i < n then i else 0);
    }
  }

  lemma NamesAreWritten(schema: seq<SchemaInput>, names: seq<string>, arguments: seq<Argument>)
    requires FitsNames(schema, names) && |arguments| == |names|
    requires forall i :: 0 <= i < |names| ==> arguments[i].name == names[i]
    ensures forall s :: s in schema && s.ty.nonNull && !s.hasDefault ==>
      exists i :: 0 <= i < |arguments| && arguments[i].name == s.name
  {
    forall s | s in schema && s.ty.nonNull && !s.hasDefault
      ensures exists i :: 0 <= i < |arguments| && arguments[i].name == s.name
    {
      var i :| 0 <= i < |names| && names[i] == s.name;
      assert arguments[i].name == s.name;
    }
  }

  lemma {:induction false} FittingArgumentsAreSupplied(
    types: Types, schema: seq<SchemaInput>, plans: seq<ArgumentPlan>, inputs: set<string>)
    requires FitsArguments(types, schema, plans, inputs)
    ensures RequiredSupplied(types, schema, WrittenArguments(plans))
    decreases plans, 2
  {
    var written := WrittenArguments(plans);
    forall i | 0 <= i < |plans|
      ensures written[i].name == plans[i].name && ArgumentSupplied(types, schema, written[i])
    {
      WrittenArgumentAt(plans, i);
      assert FitsArgument(types, schema, plans[i], inputs);
      FittingValueIsSupplied(types, FindInput(schema, plans[i].name).value.ty, plans[i].value, inputs, 0);
    }
    NamesAreWritten(schema, PlanNames(plans), written);
  }

  lemma {:induction false} FittingValueIsSupplied(
    types: Types, ty: Type, value: Adapter, inputs: set<string>, depth: nat)
    requires FitsValue(types, ty, value, inputs, depth)
    ensures ValueSupplied(types, ty, Written(value))
    decreases value, 0
  {
    match value
    case Input(_) =>
    case Fixed(json) => FixedIsSupplied(types, ty, json, depth);
    case ObjectAdapter(fields) =>
      FittingArgumentsAreSupplied(types, InputFields(types, ty).value, fields, inputs);
    case ListAdapter(items) =>
      forall i | 0 <= i < |items|
        ensures ValueSupplied(types, ty.item, WrittenItems(items)[i])
      {
        WrittenItemAt(items, i);
        FittingValueIsSupplied(types, ty.item, items[i], inputs, depth + 1);
      }
  }

  lemma {:induction false} FixedIsSupplied(types: Types, ty: Type, json: Json, depth: nat)
    requires FitsFixed(types, ty, json, depth)
    ensures ValueSupplied(types, ty, WrittenJson(json))
    decreases json
  {
    match json
    case JObject(entries) =>
      var schema := InputFields(types, ty).value;
      var written := WrittenEntries(entries);
      forall i | 0 <= i < |entries|
        ensures written[i].name == entries[i].key && ArgumentSupplied(types, schema, written[i])
      {
        WrittenEntryAt(entries, i);
        assert FitsFixedField(types, schema, entries[i]);
        FixedIsSupplied(types, FindInput(schema, entries[i].key).value.ty, entries[i].value, 0);
      }
      NamesAreWritten(schema, Keys(entries), written);
    case JArray(items) =>
      forall i | 0 <= i < |items|
        ensures ValueSupplied(types, ty.item, WrittenJsonItems(items)[i])
      {
        WrittenJsonItemAt(items, i);
        FixedIsSupplied(types, ty.item, items[i], depth + 1);
      }
    case _ =>
  }

  // ---------------------------------------------------------------- the renderer

  /** What a rendering step answers: exactly when it succeeds, and then the text and the grown type map. */
  ghost predicate Infers(inferred: map<string, Type>, fits: bool, uses: set<Use>, ok: bool, after: map<string, Type>) {
    && (ok <==> fits && Consistent(Recorded(inferred) + uses))
    && (ok ==> Recorded(after) == Recorded(inferred) + uses)
  }

  /** One more step after some successful ones. */
  lemma InfersNext(
    inferred: map<string, Type>, mid: map<string, Type>, after: map<string, Type>,
    fits: bool, uses: set<Use>, nextFits: bool, nextUses: set<Use>, ok: bool)
    requires Infers(inferred, fits, uses, true, mid) && Infers(mid, nextFits, nextUses, ok, after)
    ensures Infers(inferred, fits && nextFits, uses + nextUses, ok, after)
  {
    assert Recorded(inferred) + (uses + nextUses) == Recorded(mid) + nextUses;
  }

  /** A failed step fails whatever it is part of. */
  lemma InfersFailure(
    inferred: map<string, Type>, after: map<string, Type>,
    fits: bool, uses: set<Use>, wholeFits: bool, whole: set<Use>, any: map<string, Type>)
    requires Infers(inferred, fits, uses, false, after) && uses <= whole && (wholeFits ==> fits)
    ensures Infers(inferred, wholeFits, whole, false, any)
  {
    if Consistent(Recorded(inferred) + whole) {
      ConsistentPart(Recorded(inferred) + uses, Recorded(inferred) + whole);
    }
  }

  lemma InfersNothing(inferred: map<string, Type>)
    ensures Infers(inferred, true, {}, true, inferred)
  {
    RecordedIsConsistent(inferred);
    assert Recorded(inferred) + {} == Recorded(inferred);
  }

  lemma {:induction false} PrefixArgumentUses(types: Types, schema: seq<SchemaInput>, plans: seq<ArgumentPlan>, i: nat)
    requires i <= |plans|
    ensures ArgumentUses(types, schema, WrittenArguments(plans[..i])) <= ArgumentUses(types, schema,
      WrittenArguments(plans))
    decreases |plans|
  {
    hide WrittenArguments, ArgumentUses, UsesOf;
    if i < |plans| {
      var n := |plans| - 1;
      PrefixArgumentUses(types, schema, plans[..n], i);
      assert plans[..n][..i] == plans[..i];
      LastArgumentUses(types, schema, plans);
    } else {
      assert plans[..i] == plans;
    }
  }

  ghost function UsesOf(types: Types, schema: seq<SchemaInput>, plan: ArgumentPlan): set<Use> {
    if FindInput(schema, plan.name).Some? then
      ValueUses(types, FindInput(schema, plan.name).value.ty, Written(plan.value))
    else {}
  }

  lemma LastArgumentUses(types: Types, schema: seq<SchemaInput>, plans: seq<ArgumentPlan>)
    requires plans != []
    ensures ArgumentUses(types, schema, WrittenArguments(plans)) ==
            ArgumentUses(types, schema, WrittenArguments(plans[..|plans| - 1]))
              + UsesOf(types, schema, plans[|plans| - 1])
  {
    var written := WrittenArguments(plans);
    assert written[..|written| - 1] == WrittenArguments(plans[..|plans| - 1]);
  }

  /** One turn of the loop of `render_arguments`, seen from the whole list. */
  lemma ArgumentStep(
    types: Types, schema: seq<SchemaInput>, plans: seq<ArgumentPlan>, inputs: set<string>, i: nat,
    inferred: map<string, Type>, mid: map<string, Type>, after: map<string, Type>, ok: bool)
    requires i < |plans|
    requires Infers(inferred, FitsEach(types, schema, plans[..i], inputs),
                    ArgumentUses(types, schema, WrittenArguments(plans[..i])), true, mid)
    requires Infers(mid, FitsArgument(types, schema, plans[i], inputs), UsesOf(types, schema, plans[i]), ok, after)
    ensures ok ==> Infers(inferred, FitsEach(types, schema, plans[..i + 1], inputs),
                          ArgumentUses(types, schema, WrittenArguments(plans[..i + 1])), true, after)
    ensures !ok ==> Infers(inferred, FitsArguments(types, schema, plans, inputs),
                           ArgumentUses(types, schema, WrittenArguments(plans)), false, after)
  {
    hide Infers, FitsArgument, UsesOf, WrittenArguments, ArgumentUses, FitsNames;
    var part := plans[..i + 1];
    assert part == plans[..i] + [plans[i]] && part[..i] == plans[..i];
    LastArgumentUses(types, schema, part);
    var uses := ArgumentUses(types, schema, WrittenArguments(plans[..i]));
    InfersNext(inferred, mid, after, FitsEach(types, schema, plans[..i], inputs), uses,
               FitsArgument(types, schema, plans[i], inputs), UsesOf(types, schema, plans[i]), ok);
    assert FitsEach(types, schema, part, inputs)
      <==> FitsEach(types, schema, plans[..i], inputs) && FitsArgument(types, schema, plans[i], inputs);
    if !ok {
      PrefixArgumentUses(types, schema, plans, i + 1);
      assert FitsEach(types, schema, plans, inputs) ==> FitsEach(types, schema, part, inputs);
      InfersFailure(inferred, after, FitsEach(types, schema, part, inputs),
        ArgumentUses(types, schema, WrittenArguments(part)),
                    FitsArguments(types, schema, plans, inputs), ArgumentUses(types, schema, WrittenArguments(plans)),
                      after);
    }
  }

  lemma NothingRendered(
    types: Types, schema: seq<SchemaInput>, plans: seq<ArgumentPlan>, inputs: set<string>, inferred: map<string, Type>)
    ensures plans[..0] == [] && WrittenArguments([]) == [] && ArgumentUses(types, schema, []) == {}
    ensures Infers(inferred, FitsEach(types, schema, plans[..0], inputs), {}, true, inferred)
  {
    InfersNothing(inferred);
  }

  /** The names checked one by one amount to `FitsNames`. */
  ghost predicate NamesSoFar(schema: seq<SchemaInput>, names: seq<string>) {
    Distinct(names) && forall i :: 0 <= i < |names| ==> SafeName(names[i]) && FindInput(schema, names[i]).Some?
  }

  ghost function Members(names: seq<string>): set<string> {
    set n | n in names
  }

  lemma NextName(schema: seq<SchemaInput>, names: seq<string>, i: nat, seen: set<string>)
    requires i < |names| && NamesSoFar(schema, names[..i]) && seen == Members(names[..i])
    ensures SafeName(names[i]) && names[i] !in seen && FindInput(schema, names[i]).Some?
            ==> NamesSoFar(schema, names[..i + 1])
    ensures FitsNames(schema, names) ==> SafeName(names[i]) && names[i] !in seen && FindInput(schema, names[i]).Some?
    ensures seen + {names[i]} == Members(names[..i + 1])
  {
    assert names[..i + 1] == names[..i] + [names[i]];
    if names[i] in seen {
      var j :| 0 <= j < i && names[j] == names[i];
    }
  }

  /** `render_arguments`. */
  method RenderArguments(
    types: Types, schema: seq<SchemaInput>, plans: seq<ArgumentPlan>, inputs: set<string>, inferred: map<string, Type>)
    returns (r: Result<(seq<Argument>, map<string, Type>), ProfileError>)
    ensures Infers(inferred, FitsArguments(types, schema, plans, inputs),
                   ArgumentUses(types, schema, WrittenArguments(plans)), r.Ok?, if r.Ok? then r.value.1 else map[])
    ensures r.Ok? ==> r.value.0 == WrittenArguments(plans)
    decreases plans, 2
  {
    hide FitsEach, FitsValue, WrittenArguments, Written, ArgumentUses, ValueUses, NamesSoFar, SafeName;
    var names := PlanNames(plans);
    var rendered: seq<Argument> := [];
    var current := inferred;
    var seen: set<string> := {};
    if |plans| > MAXIMUM_PROFILE_INPUTS {
      return Err(InvalidArgument);
    }
    NothingRendered(types, schema, plans, inputs, inferred);
    NoNames(schema, names);
    for i := 0 to |plans|
      invariant rendered == WrittenArguments(plans[..i])
      invariant seen == Members(names[..i])
      invariant NamesSoFar(schema, names[..i])
      invariant Infers(inferred, FitsEach(types, schema, plans[..i], inputs),
                       ArgumentUses(types, schema, WrittenArguments(plans[..i])), true, current)
    {
      var plan := plans[i];
      NextName(schema, names, i, seen);
      if !SafeName(plan.name) || plan.name in seen || FindInput(schema, plan.name).None? {
        return Err(InvalidArgument);
      }
      seen := seen + {plan.name};
      var value := RenderValue(types, FindInput(schema, plan.name).value.ty, plan.value, inputs, current, 0);
      ArgumentStep(types, schema, plans, inputs, i, inferred, current, if value.Ok? then value.value.1
        else map[], value.Ok?);
      if value.Err? {
        return Err(value.error);
      }
      WrittenNext(plans, i);
      rendered := rendered + [Argument(plan.name, value.value.0)];
      current := value.value.1;
    }
    assert plans[..|plans|] == plans && names[..|plans|] == names;
    for k := 0 to |schema|
      invariant forall j :: 0 <= j < k && schema[j].ty.nonNull && !schema[j].hasDefault ==> schema[j].name in names
    {
      if schema[k].ty.nonNull && !schema[k].hasDefault && schema[k].name !in seen {
        return Err(InvalidArgument);
      }
    }
    NamesComplete(schema, names);
    r := Ok((rendered, current));
  }

  lemma NoNames(schema: seq<SchemaInput>, names: seq<string>)
    ensures NamesSoFar(schema, names[..0]) && Members(names[..0]) == {}
  {
  }

  lemma NotTooMany(schema: seq<SchemaInput>, names: seq<string>)
    ensures FitsNames(schema, names) ==> |names| <= MAXIMUM_PROFILE_INPUTS
  {
  }

  lemma AllNames(names: seq<string>)
    ensures forall n :: n in Members(names) <==> n in names
  {
  }

  lemma RequiredName(schema: seq<SchemaInput>, names: seq<string>, k: nat)
    requires k < |schema| && schema[k].ty.nonNull && !schema[k].hasDefault && schema[k].name !in names
    ensures !FitsNames(schema, names)
  {
  }

  lemma NamesComplete(schema: seq<SchemaInput>, names: seq<string>)
    requires NamesSoFar(schema, names) && |names| <= MAXIMUM_PROFILE_INPUTS
    requires forall j :: 0 <= j < |schema| && schema[j].ty.nonNull && !schema[j].hasDefault ==> schema[j].name in names
    ensures FitsNames(schema, names)
  {
  }

  lemma WrittenNext(plans: seq<ArgumentPlan>, i: nat)
    requires i < |plans|
    ensures WrittenArguments(plans[..i + 1]) ==
            WrittenArguments(plans[..i]) + [Argument(plans[i].name, Written(plans[i].value))]
  {
    assert plans[..i + 1][..i] == plans[..i];
  }

  /** `render_value`. */
  method RenderValue(
    types: Types, ty: Type, value: Adapter, inputs: set<string>, inferred: map<string, Type>, depth: nat)
    returns (r: Result<(Value, map<string, Type>), ProfileError>)
    ensures Infers(inferred, FitsValue(types, ty, value, inputs, depth),
                   ValueUses(types, ty, Written(value)), r.Ok?, if r.Ok? then r.value.1 else map[])
    ensures r.Ok? ==> r.value.0 == Written(value)
    decreases value, 1
  {
    if depth > MAXIMUM_PROJECTION_DEPTH {
      return Err(InvalidArgument);
    }
    match value
    case Input(name) =>
      if !SafeName(name) || name !in inputs {
        return Err(InvalidArgument);
      }
      RecordsOne(inferred, name, ty);
      if name in inferred {
        if inferred[name] != ty {
          return Err(InvalidArgument);
        }
        r := Ok((Variable(name), inferred));
      } else {
        r := Ok((Variable(name), inferred[name := ty]));
      }
    case Fixed(json) =>
      FixedUsesNothing(types, ty, json);
      InfersNothing(inferred);
      var fixed := RenderFixed(types, ty, json, depth);
      r := if fixed.Ok? then Ok((fixed.value, inferred)) else Err(fixed.error);
    case ObjectAdapter(fields) =>
      var schema := InputFields(types, ty);
      if schema.None? {
        return Err(InvalidArgument);
      }
      var rendered := RenderArguments(types, schema.value, fields, inputs, inferred);
      r := if rendered.Ok? then Ok((ObjectValue(rendered.value.0), rendered.value.1)) else Err(rendered.error);
    case ListAdapter(items) =>
      if !ty.ListOf? {
        return Err(InvalidArgument);
      }
      r := RenderList(types, ty, items, inputs, inferred, depth);
  }

  ghost predicate FitsItems(types: Types, item: Type, items: seq<Adapter>, inputs: set<string>, depth: nat) {
    forall i :: 0 <= i < |items| ==> FitsValue(types, item, items[i], inputs, depth)
  }

  /** The list branch of `render_value`. */
  method RenderList(
    types: Types, ty: Type, items: seq<Adapter>, inputs: set<string>, inferred: map<string, Type>, depth: nat)
    returns (r: Result<(Value, map<string, Type>), ProfileError>)
    requires ty.ListOf? && depth <= MAXIMUM_PROJECTION_DEPTH
    ensures Infers(inferred, FitsValue(types, ty, ListAdapter(items), inputs, depth),
                   ValueUses(types, ty, Written(ListAdapter(items))), r.Ok?, if r.Ok? then r.value.1 else map[])
    ensures r.Ok? ==> r.value.0 == Written(ListAdapter(items))
    decreases items, 2
  {
    hide Infers, FitsItems, WrittenItems, ItemUses;
    var rendered: seq<Value> := [];
    var current := inferred;
    NoItemsRendered(types, ty.item, items, inputs, depth + 1, inferred);
    for i := 0 to |items|
      invariant rendered == WrittenItems(items[..i])
      invariant Infers(inferred, FitsItems(types, ty.item, items[..i], inputs, depth + 1),
                       ItemUses(types, ty.item, WrittenItems(items[..i])), true, current)
    {
      var value := RenderValue(types, ty.item, items[i], inputs, current, depth + 1);
      ItemStep(types, ty.item, items, inputs, depth + 1, i, inferred, current,
               if value.Ok? then value.value.1 else map[], value.Ok?);
      if value.Err? {
        ListFits(types, ty, items, inputs, depth);
        return Err(value.error);
      }
      WrittenNextItem(items, i);
      rendered := rendered + [value.value.0];
      current := value.value.1;
    }
    assert items[..|items|] == items;
    ListFits(types, ty, items, inputs, depth);
    r := Ok((ListValue(rendered), current));
  }

  lemma ListFits(types: Types, ty: Type, items: seq<Adapter>, inputs: set<string>, depth: nat)
    requires ty.ListOf? && depth <= MAXIMUM_PROJECTION_DEPTH
    ensures FitsValue(types, ty, ListAdapter(items), inputs, depth)
      == FitsItems(types, ty.item, items, inputs, depth + 1)
    ensures Written(ListAdapter(items)) == ListValue(WrittenItems(items))
    ensures ValueUses(types, ty, Written(ListAdapter(items))) == ItemUses(types, ty.item, WrittenItems(items))
  {
  }

  lemma NoItemsRendered(
    types: Types, item: Type, items: seq<Adapter>, inputs: set<string>, depth: nat, inferred: map<string, Type>)
    ensures items[..0] == [] && WrittenItems([]) == []
    ensures Infers(inferred, FitsItems(types, item, items[..0], inputs, depth),
                   ItemUses(types, item, WrittenItems(items[..0])), true, inferred)
  {
    InfersNothing(inferred);
  }

  lemma WrittenNextItem(items: seq<Adapter>, i: nat)
    requires i < |items|
    ensures WrittenItems(items[..i + 1]) == WrittenItems(items[..i]) + [Written(items[i])]
  {
    assert items[..i + 1][..i] == items[..i];
  }

  lemma {:induction false} PrefixItemUses(types: Types, item: Type, items: seq<Adapter>, i: nat)
    requires i <= |items|
    ensures ItemUses(types, item, WrittenItems(items[..i])) <= ItemUses(types, item, WrittenItems(items))
    decreases |items|
  {
    if i < |items| {
      var n := |items| - 1;
      PrefixItemUses(types, item, items[..n], i);
      assert items[..n][..i] == items[..i];
      var written := WrittenItems(items);
      assert written[..n] == WrittenItems(items[..n]);
    } else {
      assert items[..i] == items;
    }
  }

  lemma ItemStep(
    types: Types, item: Type, items: seq<Adapter>, inputs: set<string>, depth: nat, i: nat,
    inferred: map<string, Type>, mid: map<string, Type>, after: map<string, Type>, ok: bool)
    requires i < |items|
    requires Infers(inferred, FitsItems(types, item, items[..i], inputs, depth),
                    ItemUses(types, item, WrittenItems(items[..i])), true, mid)
    requires Infers(mid, FitsValue(types, item, items[i], inputs, depth), ValueUses(types, item, Written(items[i])),
      ok, after)
    ensures ok ==> Infers(inferred, FitsItems(types, item, items[..i + 1], inputs, depth),
                          ItemUses(types, item, WrittenItems(items[..i + 1])), true, after)
    ensures !ok ==> Infers(inferred, FitsItems(types, item, items, inputs, depth),
                           ItemUses(types, item, WrittenItems(items)), false, after)
  {
    hide Infers, FitsValue, ValueUses, Written, WrittenItems, ItemUses;
    var part := items[..i + 1];
    assert part == items[..i] + [items[i]] && part[..i] == items[..i];
    LastItemUses(types, item, part);
    var uses := ItemUses(types, item, WrittenItems(items[..i]));
    InfersNext(inferred, mid, after, FitsItems(types, item, items[..i], inputs, depth), uses,
               FitsValue(types, item, items[i], inputs, depth), ValueUses(types, item, Written(items[i])), ok);
    assert FitsItems(types, item, part, inputs, depth)
      <==> FitsItems(types, item, items[..i], inputs, depth) && FitsValue(types, item, items[i], inputs, depth);
    if !ok {
      PrefixItemUses(types, item, items, i + 1);
      assert FitsItems(types, item, items, inputs, depth) ==> FitsItems(types, item, part, inputs, depth);
      InfersFailure(inferred, after, FitsItems(types, item, part, inputs, depth),
        ItemUses(types, item, WrittenItems(part)),
                    FitsItems(types, item, items, inputs, depth), ItemUses(types, item, WrittenItems(items)), after);
    }
  }

  lemma LastItemUses(types: Types, item: Type, items: seq<Adapter>)
    requires items != []
    ensures ItemUses(types, item, WrittenItems(items)) ==
            ItemUses(types, item, WrittenItems(items[..|items| - 1]))
              + ValueUses(types, item, Written(items[|items| - 1]))
  {
    var written := WrittenItems(items);
    assert written[..|written| - 1] == WrittenItems(items[..|items| - 1]);
  }

  /** `render_fixed`; an input object goes through the checks of `render_arguments`, with no inputs to refer to. */
  method RenderFixed(types: Types, ty: Type, value: Json, depth: nat) returns (r: Result<Value, ProfileError>)
    ensures r == if FitsFixed(types, ty, value, depth) then Ok(WrittenJson(value)) else Err(InvalidArgument)
    decreases value, 1
  {
    if depth > MAXIMUM_PROJECTION_DEPTH {
      return Err(InvalidArgument);
    }
    if value.JNull? {
      return if ty.nonNull then Err(InvalidArgument) else Ok(Literal(JNull));
    }
    if ty.ListOf? {
      if !value.JArray? {
        return Err(InvalidArgument);
      }
      var rendered: seq<Value> := [];
      for i := 0 to |value.items|
        invariant rendered == WrittenJsonItems(value.items[..i])
        invariant forall j :: 0 <= j < i ==> FitsFixed(types, ty.item, value.items[j], depth + 1)
      {
        var item := RenderFixed(types, ty.item, value.items[i], depth + 1);
        if item.Err? {
          return Err(InvalidArgument);
        }
        assert value.items[..i + 1][..i] == value.items[..i];
        rendered := rendered + [item.value];
      }
      assert value.items[..|value.items|] == value.items;
      return Ok(ListValue(rendered));
    }
    if PlainType(ty).None? {
      return Err(InvalidArgument);
    }
    var fields := InputFields(types, ty);
    if fields.Some? {
      if !value.JObject? {
        return Err(InvalidArgument);
      }
      var rendered := RenderFixedFields(types, fields.value, value.entries);
      return if rendered.Ok? then Ok(ObjectValue(rendered.value)) else Err(InvalidArgument);
    }
    if !FitsLeaf(types, PlainType(ty).value, value) {
      return Err(InvalidArgument);
    }
    r := Ok(Literal(value));
  }

  ghost predicate FitsFixedFields(types: Types, schema: seq<SchemaInput>, entries: seq<Entry>) {
    forall i :: 0 <= i < |entries| ==> FitsFixedField(types, schema, entries[i])
  }

  method RenderFixedFields(types: Types, schema: seq<SchemaInput>, entries: seq<Entry>)
    returns (r: Result<seq<Argument>, ProfileError>)
    ensures r == if FitsNames(schema, Keys(entries)) && FitsFixedFields(types, schema, entries)
                 then Ok(WrittenEntries(entries)) else Err(InvalidArgument)
    decreases entries, 2
  {
    hide NamesSoFar, SafeName, Members, FitsNames, FitsFixed, FindInput;
    var names := Keys(entries);
    var rendered: seq<Argument> := [];
    var seen: set<string> := {};
    NotTooMany(schema, names);
    if |entries| > MAXIMUM_PROFILE_INPUTS {
      return Err(InvalidArgument);
    }
    NoNames(schema, names);
    for i := 0 to |entries|
      invariant rendered == WrittenEntries(entries[..i])
      invariant seen == Members(names[..i])
      invariant NamesSoFar(schema, names[..i])
      invariant forall j :: 0 <= j < i ==> FitsFixedField(types, schema, entries[j])
    {
      var e := entries[i];
      NextName(schema, names, i, seen);
      if !SafeName(e.key) || e.key in seen || FindInput(schema, e.key).None? {
        return Err(InvalidArgument);
      }
      seen := seen + {e.key};
      var value := RenderFixed(types, FindInput(schema, e.key).value.ty, e.value, 0);
      if value.Err? {
        return Err(InvalidArgument);
      }
      assert entries[..i + 1][..i] == entries[..i];
      rendered := rendered + [Argument(e.key, value.value)];
    }
    assert entries[..|entries|] == entries && names[..|entries|] == names;
    AllNames(names);
    for k := 0 to |schema|
      invariant forall j :: 0 <= j < k && schema[j].ty.nonNull && !schema[j].hasDefault ==> schema[j].name in names
    {
      if schema[k].ty.nonNull && !schema[k].hasDefault && schema[k].name !in seen {
        RequiredName(schema, names, k);
        return Err(InvalidArgument);
      }
    }
    NamesComplete(schema, names);
    r := Ok(rendered);
  }
}
