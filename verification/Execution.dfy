/**
 * GraphQL documents as trees and their execution over a data graph, after sections 6.3 and 6.4 of the October
 * 2021 specification.
 */
module Execution {
  import opened Common
  import opened JsonModel
  import opened Disclosure
  import opened TypeText
  import opened Schema

  // ---------------------------------------------------------------- documents

  datatype Value =
    | Variable(name: string)
    | Literal(value: Json)
    | ObjectValue(fields: seq<Argument>)
    | ListValue(items: seq<Value>)

  datatype Argument = Argument(name: string, value: Value)

  /** A field with its response key; an empty sub-selection marks a leaf. */
  datatype Selection = Selection(key: string, name: string, arguments: seq<Argument>, sub: seq<Selection>)

  type Variables = map<string, Json>

  /** The value of an input expression; an absent variable supplies nothing. */
  function Coerce(v: Value, vars: Variables): Option<Json>
    decreases v, 1
  {
    match v
    case Variable(name) => if name in vars then Some(vars[name]) else None
    case Literal(value) => Some(value)
    case ObjectValue(fields) => Some(JObject(CoerceFields(fields, vars)))
    case ListValue(items) => Some(JArray(CoerceItems(items, vars)))
  }

  function CoerceFields(fields: seq<Argument>, vars: Variables): seq<Entry>
    decreases fields, 0
  {
    if fields == [] then []
    else
      var first := Coerce(fields[0].value, vars);
      (if first.Some? then [Entry(fields[0].name, first.value)] else []) + CoerceFields(fields[1..], vars)
  }

  function CoerceItems(items: seq<Value>, vars: Variables): seq<Json>
    decreases items, 0
  {
    if items == [] then []
    else
      var first := Coerce(items[0], vars);
      [if first.Some? then first.value else JNull] + CoerceItems(items[1..], vars)
  }

  function ArgumentValues(arguments: seq<Argument>, vars: Variables): map<string, Json> {
    if arguments == [] then map[]
    else
      var rest := ArgumentValues(arguments[1..], vars);
      var first := Coerce(arguments[0].value, vars);
      if first.Some? then rest[arguments[0].name := first.value] else rest
  }

  // ---------------------------------------------------------------- data and execution

  datatype Data = Absent | Leaf(value: Json) | Items(items: seq<Data>) | Node(id: nat)

  /** A data graph, possibly cyclic: what every object resolves every field to, under every argument map. */
  datatype World = World(typeOf: nat -> string, resolve: (nat, string, map<string, Json>) -> Data)

  function Complete(w: World, vars: Variables, d: Data, sub: seq<Selection>): Json
    decreases sub, 1, d
  {
    match d
    case Absent => JNull
    case Leaf(value) => value
    case Items(items) => JArray(seq(|items|, i requires 0 <= i < |items| => Complete(w, vars, items[i], sub)))
    case Node(id) => JObject(ExecuteSelections(w, vars, id, sub))
  }

  function ExecuteField(w: World, vars: Variables, id: nat, s: Selection): Json
    decreases s, 2
  {
    Complete(w, vars, w.resolve(id, s.name, ArgumentValues(s.arguments, vars)), s.sub)
  }

  /** Response keys of the compiled selections are distinct, so field merging never applies. */
  function ExecuteSelections(w: World, vars: Variables, id: nat, selections: seq<Selection>): (entries: seq<Entry>)
    ensures |entries| == |selections|
    ensures forall i :: 0 <= i < |selections| ==>
              entries[i] == Entry(selections[i].key, ExecuteField(w, vars, id, selections[i]))
    decreases selections, 0
  {
    if selections == [] then []
    else
      [Entry(selections[0].key, ExecuteField(w, vars, id, selections[0]))]
      + ExecuteSelections(w, vars, id, selections[1..])
  }

  // ---------------------------------------------------------------- conforming data

  /** Data of a type. Any position may be absent; leaves are JSON scalars; objects are tagged with their type. */
  ghost predicate Fits(types: Types, w: World, d: Data, ty: Type)
    decreases ty
  {
    d.Absent? ||
    match ty
    case Named(name, _) =>
      if IsObject(types, name) then d.Node? && w.typeOf(d.id) == name else d.Leaf? && IsLeaf(d.value)
    case ListOf(item, _) =>
      d.Items? && forall i :: 0 <= i < |d.items| ==> Fits(types, w, d.items[i], item)
  }

  ghost predicate ConformingWorld(types: Types, w: World) {
    forall id: nat, name: string, arguments: map<string, Json> ::
      ObjectField(types, w.typeOf(id), name).Some? ==>
        Fits(types, w, w.resolve(id, name, arguments), ObjectField(types, w.typeOf(id), name).value.ty)
  }

  /** Object-valued fields are not lists of lists. */
  ghost predicate FlatObjectLists(types: Types) {
    forall t :: IsObject(types, t) ==>
      forall f :: f in types[t].fields && IsObject(types, f.ty.Base()) && f.ty.ListOf? ==> f.ty.item.Named?
  }

  /** What a shape promises about a result: it is accepted and it is a well-formed JSON value. */
  ghost predicate Discloses(v: Json, s: Shape) {
    UniqueKeys(v) && Conforms(v, s)
  }

  ghost predicate DistinctKeys(selections: seq<Selection>) {
    forall i, j :: 0 <= i < j < |selections| ==> selections[i].key != selections[j].key
  }

  /** Every object of the type resolves the selected field to something its shape discloses. */
  ghost predicate FieldDiscloses(w: World, vars: Variables, typeName: string, s: Selection, shape: Shape) {
    forall id: nat :: w.typeOf(id) == typeName ==> Discloses(ExecuteField(w, vars, id, s), shape)
  }

  ghost predicate NodeDiscloses(w: World, vars: Variables, typeName: string, sub: seq<Selection>, shape: Shape) {
    && shape.rule.disposition == Exportable
    && forall id: nat :: w.typeOf(id) == typeName ==> Discloses(Complete(w, vars, Node(id), sub), shape)
  }

  /** Field-by-field disclosure adds up to disclosure of the object. */
  lemma ObjectDiscloses(w: World, vars: Variables, typeName: string, selections: seq<Selection>, shape: Shape)
    requires shape.Object? && shape.rule.disposition == Exportable && DistinctKeys(selections)
    requires forall i :: 0 <= i < |selections| ==>
               && selections[i].key in shape.fields
               && FieldDiscloses(w, vars, typeName, selections[i], shape.fields[selections[i].key])
    ensures NodeDiscloses(w, vars, typeName, selections, shape)
  {
    forall id: nat | w.typeOf(id) == typeName ensures Discloses(Complete(w, vars, Node(id), selections), shape) {
      var v := Complete(w, vars, Node(id), selections);
      forall i | 0 <= i < |v.entries|
        ensures v.entries[i].key in shape.fields && Discloses(v.entries[i].value, shape.fields[v.entries[i].key])
      {
        assert FieldDiscloses(w, vars, typeName, selections[i], shape.fields[selections[i].key]);
      }
    }
  }
}
