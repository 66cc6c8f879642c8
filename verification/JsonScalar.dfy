/** Opaque JSON inputs: the walker, its byte counter, the published schema. */
module JsonScalar {
  import opened Common
  import opened JsonModel
  import opened Disclosure
  import opened Arguments

  const MAXIMUM_JSON_SCALAR_BYTES: nat := 65_536
  const MAXIMUM_JSON_SCALAR_NODES: nat := 4_096

  datatype InputLimits = InputLimits(maximumInputDepth: nat, maximumStringBytes: nat, maximumListItems: nat)

  /** The range that `AiGraphqlQueryCapabilityLimits::new` admits for the input depth. */
  predicate ValidLimits(limits: InputLimits) {
    1 <= limits.maximumInputDepth <= 16
  }

  // ---------------------------------------------------------------- the walker's budget

  /** No path from the root is longer than `h` steps. */
  ghost predicate HeightAtMost(v: Json, h: int) {
    && h >= 0
    && match v
       case JArray(items) => forall i :: 0 <= i < |items| ==> HeightAtMost(items[i], h - 1)
       case JObject(entries) => forall i :: 0 <= i < |entries| ==> HeightAtMost(entries[i].value, h - 1)
       case _ => true
  }

  /** Every container is narrow enough, every string and key short enough. */
  ghost predicate Narrow(v: Json, limits: InputLimits) {
    match v
    case JString(s) => ByteLength(s) <= limits.maximumStringBytes
    case JArray(items) =>
      |items| <= limits.maximumListItems && forall i :: 0 <= i < |items| ==> Narrow(items[i], limits)
    case JObject(entries) =>
      && |entries| <= limits.maximumListItems
      && forall i :: 0 <= i < |entries| ==>
           ByteLength(entries[i].key) <= limits.maximumStringBytes && Narrow(entries[i].value, limits)
    case _ => true
  }

  ghost predicate Visitable(v: Json, depth: nat, limits: InputLimits, nodes: nat) {
    && nodes + NodeCount(v) <= MAXIMUM_JSON_SCALAR_NODES
    && HeightAtMost(v, limits.maximumInputDepth - depth)
    && Narrow(v, limits)
  }

  /** The inner `visit`; the node counter goes in and comes out. */
  method Visit(v: Json, depth: nat, limits: InputLimits, nodes: nat) returns (r: Option<nat>)
    requires ValidLimits(limits)
    ensures r.Some? <==> Visitable(v, depth, limits, nodes)
    ensures r.Some? ==> r.value == nodes + NodeCount(v)
    decreases v, 2
  {
    var count := nodes + 1;
    if count > MAXIMUM_JSON_SCALAR_NODES || depth > limits.maximumInputDepth {
      return None;
    }
    match v
    case JString(s) => r := if ByteLength(s) > limits.maximumStringBytes then None else Some(count);
    case JArray(items) => r := VisitItems(items, depth, limits, count);
    case JObject(entries) => r := VisitEntries(entries, depth, limits, count);
    case _ => r := Some(count);
  }

  /** The array branch, once the array itself is counted. */
  method VisitItems(items: seq<Json>, depth: nat, limits: InputLimits, nodes: nat) returns (r: Option<nat>)
    requires ValidLimits(limits) && depth <= limits.maximumInputDepth && nodes <= MAXIMUM_JSON_SCALAR_NODES
    ensures r.Some? <==>
      && nodes + ItemNodes(items) <= MAXIMUM_JSON_SCALAR_NODES
      && HeightAtMost(JArray(items), limits.maximumInputDepth - depth) && Narrow(JArray(items), limits)
    ensures r.Some? ==> r.value == nodes + ItemNodes(items)
    decreases items, 1
  {
    if |items| > limits.maximumListItems {
      return None;
    }
    var count: nat := nodes;
    for i := 0 to |items|
      invariant count + ItemNodes(items[i..]) == nodes + ItemNodes(items)
      invariant count <= MAXIMUM_JSON_SCALAR_NODES
      invariant forall j :: 0 <= j < i ==>
        HeightAtMost(items[j], limits.maximumInputDepth - depth - 1) && Narrow(items[j], limits)
    {
      assert items[i..][0] == items[i] && items[i..][1..] == items[i + 1..];
      var next := Visit(items[i], depth + 1, limits, count);
      if next.None? {
        return None;
      }
      count := next.value;
    }
    assert items[|items|..] == [];
    r := Some(count);
  }

  /** The object branch; keys are measured but not counted. */
  method VisitEntries(entries: seq<Entry>, depth: nat, limits: InputLimits, nodes: nat) returns (r: Option<nat>)
    requires ValidLimits(limits) && depth <= limits.maximumInputDepth && nodes <= MAXIMUM_JSON_SCALAR_NODES
    ensures r.Some? <==>
      && nodes + EntryNodes(entries) <= MAXIMUM_JSON_SCALAR_NODES
      && HeightAtMost(JObject(entries), limits.maximumInputDepth - depth) && Narrow(JObject(entries), limits)
    ensures r.Some? ==> r.value == nodes + EntryNodes(entries)
    decreases entries, 1
  {
    if |entries| > limits.maximumListItems {
      return None;
    }
    var count: nat := nodes;
    for i := 0 to |entries|
      invariant count + EntryNodes(entries[i..]) == nodes + EntryNodes(entries)
      invariant count <= MAXIMUM_JSON_SCALAR_NODES
      invariant forall j :: 0 <= j < i ==>
        && ByteLength(entries[j].key) <= limits.maximumStringBytes
        && HeightAtMost(entries[j].value, limits.maximumInputDepth - depth - 1) && Narrow(entries[j].value, limits)
    {
      assert entries[i..][0] == entries[i] && entries[i..][1..] == entries[i + 1..];
      if ByteLength(entries[i].key) > limits.maximumStringBytes {
        return None;
      }
      var next := Visit(entries[i].value, depth + 1, limits, count);
      if next.None? {
        return None;
      }
      count := next.value;
    }
    assert entries[|entries|..] == [];
    r := Some(count);
  }

  // ---------------------------------------------------------------- the serialized size

  /** How `serde_json` writes one character of a string. */
  function EscapedBytes(c: char): nat {
    if c == '\"' || c == '\\' || c == 8 as char || c == 9 as char || c == 10 as char || c == 12 as char
      || c == 13 as char
    then 2
    else if (c as int) < 0x20 then 6
    else CharBytes(c)
  }

  function EscapedLength(s: string): nat {
    if s == "" then 0 else EscapedBytes(s[0]) + EscapedLength(s[1..])
  }

  /** Bytes of the compact encoding; the length of a printed number is a parameter. */
  function Size(v: Json, digits: real -> nat): nat
    decreases v, 1
  {
    match v
    case JNull => 4
    case JBool(b) => if b then 4 else 5
    case JNumber(n) => digits(n)
    case JString(s) => 2 + EscapedLength(s)
    case JArray(items) => 2 + ItemsSize(items, digits)
    case JObject(entries) => 2 + EntriesSize(entries, digits)
  }

  /** The items and the commas between them. */
  function ItemsSize(items: seq<Json>, digits: real -> nat): nat
    decreases items, 0
  {
    if items == [] then 0
    else Size(items[0], digits) + (if |items| > 1 then 1 else 0) + ItemsSize(items[1..], digits)
  }

  function EntriesSize(entries: seq<Entry>, digits: real -> nat): nat
    decreases entries, 0
  {
    if entries == [] then 0
    else
      2 + EscapedLength(entries[0].key) + 1 + Size(entries[0].value, digits)
      + (if |entries| > 1 then 1 else 0) + EntriesSize(entries[1..], digits)
  }

  /** The `Write` that measures a serialization and refuses to go past the budget. */
  class ByteCounter {
    var count: nat

    constructor ()
      ensures count == 0
    {
      count := 0;
    }

    /** One `write`: it succeeds exactly while the running total fits, and leaves the total alone otherwise. */
    method Write(bytes: nat) returns (ok: bool)
      modifies this
      ensures ok <==> old(count) + bytes <= MAXIMUM_JSON_SCALAR_BYTES
      ensures count == if ok then old(count) + bytes else old(count)
    {
      ok := count + bytes <= MAXIMUM_JSON_SCALAR_BYTES;
      if ok {
        count := count + bytes;
      }
    }

    /** `serde_json::to_writer`: chunk by chunk, stopping at the first refused one. */
    method Serialize(v: Json, digits: real -> nat) returns (ok: bool)
      modifies this
      ensures ok <==> old(count) + Size(v, digits) <= MAXIMUM_JSON_SCALAR_BYTES
      ensures ok ==> count == old(count) + Size(v, digits)
      decreases v, 0
    {
      match v
      case JArray(items) => ok := SerializeItems(v, digits);
      case JObject(entries) => ok := SerializeEntries(v, digits);
      case _ => ok := Write(Size(v, digits));
    }

    method SerializeItems(v: Json, digits: real -> nat) returns (ok: bool)
      requires v.JArray?
      modifies this
      ensures ok <==> old(count) + Size(v, digits) <= MAXIMUM_JSON_SCALAR_BYTES
      ensures ok ==> count == old(count) + Size(v, digits)
      decreases v, -1
    {
      var items := v.items;
      ghost var total := count + Size(v, digits);
      ok := Write(1);
      if !ok {
        return;
      }
      for i := 0 to |items|
        invariant count + ItemsSize(items[i..], digits) + 1 == total
        invariant count <= MAXIMUM_JSON_SCALAR_BYTES
      {
        assert items[i..][1..] == items[i + 1..];
        ok := Serialize(items[i], digits);
        if !ok {
          return;
        }
        if i + 1 < |items| {
          ok := Write(1);
          if !ok {
            return;
          }
        }
      }
      assert ItemsSize(items[|items|..], digits) == 0;
      ok := Write(1);
    }

    method SerializeEntries(v: Json, digits: real -> nat) returns (ok: bool)
      requires v.JObject?
      modifies this
      ensures ok <==> old(count) + Size(v, digits) <= MAXIMUM_JSON_SCALAR_BYTES
      ensures ok ==> count == old(count) + Size(v, digits)
      decreases v, -1
    {
      var entries := v.entries;
      ghost var total := count + Size(v, digits);
      ok := Write(1);
      if !ok {
        return;
      }
      for i := 0 to |entries|
        invariant count + EntriesSize(entries[i..], digits) + 1 == total
        invariant count <= MAXIMUM_JSON_SCALAR_BYTES
      {
        assert entries[i..][1..] == entries[i + 1..];
        ok := Write(2 + EscapedLength(entries[i].key) + 1);
        if !ok {
          return;
        }
        ok := Serialize(entries[i].value, digits);
        if !ok {
          return;
        }
        if i + 1 < |entries| {
          ok := Write(1);
          if !ok {
            return;
          }
        }
      }
      assert EntriesSize(entries[|entries|..], digits) == 0;
      ok := Write(1);
    }
  }

  /** `validate_json_scalar`. */
  method ValidateJsonScalar(v: Json, depth: nat, limits: InputLimits, digits: real -> nat) returns (ok: bool)
    requires ValidLimits(limits)
    ensures ok <==> Visitable(v, depth, limits, 0) && Size(v, digits) <= MAXIMUM_JSON_SCALAR_BYTES
  {
    var visited := Visit(v, depth, limits, 0);
    if visited.None? {
      return false;
    }
    var counter := new ByteCounter();
    ok := counter.Serialize(v, digits);
  }

  // ---------------------------------------------------------------- the published schema

  /** One branch of a definition's `anyOf`; a reference names another definition. */
  datatype Alternative =
    | NullType
    | BooleanType
    | NumberType
    | StringType(maxLength: nat)
    | ArrayType(maxItems: nat, items: Option<string>)
    | ObjectType(maxProperties: nat, maxKeyLength: Option<nat>, values: Option<string>)

  type Definitions = map<string, seq<Alternative>>

  /** JSON Schema validation by a named definition; an unresolved reference admits nothing. */
  ghost predicate Validates(v: Json, name: string, defs: Definitions)
    decreases v, 1
  {
    name in defs && exists k :: 0 <= k < |defs[name]| && Matches(v, defs[name][k], defs)
  }

  ghost predicate Matches(v: Json, a: Alternative, defs: Definitions)
    decreases v, 0
  {
    match a
    case NullType => v.JNull?
    case BooleanType => v.JBool?
    case NumberType => v.JNumber?
    case StringType(maxLength) => v.JString? && |v.s| <= maxLength
    case ArrayType(maxItems, items) =>
      && v.JArray? && |v.items| <= maxItems
      && (items.Some? ==> forall i :: 0 <= i < |v.items| ==> Validates(v.items[i], items.value, defs))
    case ObjectType(maxProperties, maxKeyLength, values) =>
      && v.JObject? && |v.entries| <= maxProperties
      && (maxKeyLength.Some? ==> forall i :: 0 <= i < |v.entries| ==> |v.entries[i].key| <= maxKeyLength.value)
      && (values.Some? ==> forall i :: 0 <= i < |v.entries| ==> Validates(v.entries[i].value, values.value, defs))
  }

  function LevelName(level: nat): string {
    "canonical_json_" + Decimal(level)
  }

  lemma LevelNameInjective(a: nat, b: nat)
    requires LevelName(a) == LevelName(b)
    ensures a == b
  {
    var n := |"canonical_json_"|;
    assert LevelName(a)[n..] == Decimal(a) && LevelName(b)[n..] == Decimal(b);
    DecimalInjective(a, b);
  }

  function LevelDefinition(level: nat, limits: InputLimits): seq<Alternative> {
    [NullType, BooleanType, NumberType, StringType(limits.maximumStringBytes)]
    + if level > 0 then
        [ArrayType(limits.maximumListItems, Some(LevelName(level - 1))),
         ObjectType(limits.maximumListItems, Some(limits.maximumStringBytes), Some(LevelName(level - 1)))]
      else [ArrayType(0, None), ObjectType(0, None, None)]
  }

  /** Levels `0..=top`, each under its name; other definitions may be present. */
  ghost predicate HoldsLevels(defs: Definitions, top: nat, limits: InputLimits) {
    forall level: nat :: level <= top ==>
      LevelName(level) in defs && defs[LevelName(level)] == LevelDefinition(level, limits)
  }

  function Remaining(depth: nat, limits: InputLimits): nat {
    if depth <= limits.maximumInputDepth then limits.maximumInputDepth - depth else 0
  }

  /** `bounded_json_schema`: the root reference and the definitions it needs. */
  method BoundedJsonSchema(depth: nat, limits: InputLimits) returns (root: string, defs: Definitions)
    ensures root == LevelName(Remaining(depth, limits))
    ensures OnlyLevels(defs, Remaining(depth, limits) + 1, limits)
  {
    hide LevelName, LevelDefinition;
    var remaining := Remaining(depth, limits);
    defs := map[];
    for level := 0 to remaining + 1
      invariant OnlyLevels(defs, level, limits)
    {
      AddLevel(defs, level, limits);
      defs := defs[LevelName(level) := LevelDefinition(level, limits)];
    }
    root := LevelName(remaining);
  }

  /** Exactly the levels below `n`. */
  ghost predicate OnlyLevels(defs: Definitions, n: nat, limits: InputLimits) {
    && (forall level: nat :: level < n ==>
          LevelName(level) in defs && defs[LevelName(level)] == LevelDefinition(level, limits))
    && (forall name :: name in defs ==> exists level: nat :: level < n && name == LevelName(level))
  }

  lemma AddLevel(defs: Definitions, n: nat, limits: InputLimits)
    requires OnlyLevels(defs, n, limits)
    ensures OnlyLevels(defs[LevelName(n) := LevelDefinition(n, limits)], n + 1, limits)
  {
    hide LevelName, LevelDefinition;
    forall level: nat | level < n ensures LevelName(level) != LevelName(n) {
      if LevelName(level) == LevelName(n) {
        LevelNameInjective(level, n);
      }
    }
    forall name | name in defs ensures exists level: nat :: level < n + 1 && name == LevelName(level) {
      var level: nat :| level < n && name == LevelName(level);
    }
  }

  /** The schema counts characters where the walker counts bytes. */
  ghost predicate NarrowInCharacters(v: Json, limits: InputLimits) {
    match v
    case JString(s) => |s| <= limits.maximumStringBytes
    case JArray(items) =>
      |items| <= limits.maximumListItems && forall i :: 0 <= i < |items| ==> NarrowInCharacters(items[i], limits)
    case JObject(entries) =>
      && |entries| <= limits.maximumListItems
      && forall i :: 0 <= i < |entries| ==>
           |entries[i].key| <= limits.maximumStringBytes && NarrowInCharacters(entries[i].value, limits)
    case _ => true
  }

  /** A level's definition admits exactly the values of that height whose widths and character lengths fit. */
  lemma {:induction false} LevelAdmits(v: Json, level: nat, defs: Definitions, limits: InputLimits)
    requires HoldsLevels(defs, level, limits)
    ensures Validates(v, LevelName(level), defs) <==> HeightAtMost(v, level) && NarrowInCharacters(v, limits)
    decreases v
  {
    hide Validates, LevelName, LevelDefinition;
    OneLevel(v, level, defs, limits);
    match v
    case JArray(items) =>
      assert items != [] && level == 0 ==> !HeightAtMost(items[0], level - 1);
      if level > 0 {
        forall i | 0 <= i < |items|
          ensures Validates(items[i], LevelName(level - 1), defs)
                  <==> HeightAtMost(items[i], level - 1) && NarrowInCharacters(items[i], limits)
        {
          LevelAdmits(items[i], level - 1, defs, limits);
        }
      }
    case JObject(entries) =>
      assert entries != [] && level == 0 ==> !HeightAtMost(entries[0].value, level - 1);
      if level > 0 {
        forall i | 0 <= i < |entries|
          ensures Validates(entries[i].value, LevelName(level - 1), defs)
                  <==> HeightAtMost(entries[i].value, level - 1) && NarrowInCharacters(entries[i].value, limits)
        {
          LevelAdmits(entries[i].value, level - 1, defs, limits);
        }
      }
    case _ =>
  }

  /** What one level asks of a value, in terms of the level below. */
  lemma OneLevel(v: Json, level: nat, defs: Definitions, limits: InputLimits)
    requires HoldsLevels(defs, level, limits)
    ensures Validates(v, LevelName(level), defs) <==>
      match v
      case JString(s) => |s| <= limits.maximumStringBytes
      case JArray(items) =>
        if level == 0 then items == []
        else |items| <= limits.maximumListItems
             && forall i :: 0 <= i < |items| ==> Validates(items[i], LevelName(level - 1), defs)
      case JObject(entries) =>
        if level == 0 then entries == []
        else |entries| <= limits.maximumListItems
             && (forall i :: 0 <= i < |entries| ==> |entries[i].key| <= limits.maximumStringBytes)
             && forall i :: 0 <= i < |entries| ==> Validates(entries[i].value, LevelName(level - 1), defs)
      case _ => true
  {
    hide LevelName;
    var d := LevelDefinition(level, limits);
    assert d == defs[LevelName(level)] && |d| == 6;
    AnyOfSix(v, LevelName(level), d, defs);
  }

  lemma AnyOfSix(v: Json, name: string, d: seq<Alternative>, defs: Definitions)
    requires name in defs && defs[name] == d && |d| == 6
    ensures Validates(v, name, defs) <==>
            Matches(v, d[0], defs) || Matches(v, d[1], defs) || Matches(v, d[2], defs)
            || Matches(v, d[3], defs) || Matches(v, d[4], defs) || Matches(v, d[5], defs)
  {
    hide Matches;
  }

  lemma {:induction false} BytesBoundCharacters(v: Json, limits: InputLimits)
    requires Narrow(v, limits)
    ensures NarrowInCharacters(v, limits)
  {
    match v
    case JArray(items) => forall i | 0 <= i < |items| { BytesBoundCharacters(items[i], limits); }
    case JObject(entries) => forall i | 0 <= i < |entries| { BytesBoundCharacters(entries[i].value, limits); }
    case _ =>
  }

  /** Whatever the walker accepts at a depth, the schema published for that depth accepts. */
  lemma WalkerRefinesSchema(v: Json, depth: nat, limits: InputLimits, defs: Definitions)
    requires Visitable(v, depth, limits, 0) && HoldsLevels(defs, Remaining(depth, limits), limits)
    ensures Validates(v, LevelName(Remaining(depth, limits)), defs)
  {
    BytesBoundCharacters(v, limits);
    LevelAdmits(v, Remaining(depth, limits), defs, limits);
  }

  // ---------------------------------------------------------------- hoisting definitions

  /** A schema document: at each node its local definitions, a reference into them, and its children. */
  datatype Tree = Tree(local: Definitions, reference: Option<string>, children: seq<Tree>)

  datatype Binding = Binding(name: string, definition: seq<Alternative>)

  ghost function Bound(defs: Definitions): set<Binding> {
    set name | name in defs :: Binding(name, defs[name])
  }

  /** Everything a document defines, at any node. */
  ghost function TreeBindings(t: Tree): set<Binding>
    decreases t, 1
  {
    Bound(t.local) + ChildBindings(t.children)
  }

  ghost function ChildBindings(children: seq<Tree>): set<Binding>
    decreases children, 0
  {
    if children == [] then {}
    else ChildBindings(children[..|children| - 1]) + TreeBindings(children[|children| - 1])
  }

  /** No name has two definitions. */
  ghost predicate Coherent(bindings: set<Binding>) {
    forall a, b :: a in bindings && b in bindings && a.name == b.name ==> a == b
  }

  lemma CoherentPart(part: set<Binding>, whole: set<Binding>)
    requires part <= whole && Coherent(whole)
    ensures Coherent(part)
  {
  }

  lemma BindOne(defs: Definitions, name: string, definition: seq<Alternative>)
    ensures name in defs && defs[name] == definition ==> Bound(defs) + {Binding(name, definition)} == Bound(defs)
    ensures name in defs && defs[name] != definition ==> !Coherent(Bound(defs) + {Binding(name, definition)})
    ensures name !in defs ==> Bound(defs[name := definition]) == Bound(defs) + {Binding(name, definition)}
  {
    var all := Bound(defs) + {Binding(name, definition)};
    if name in defs {
      assert Binding(name, defs[name]) in all && Binding(name, definition) in all;
    } else {
      var next := defs[name := definition];
      forall b | b in all ensures b in Bound(next) {
        assert b.name in next && next[b.name] == b.definition;
      }
    }
  }

  lemma BoundIsCoherent(defs: Definitions)
    ensures Coherent(Bound(defs))
  {
  }

  /** The definitions of one node, moved into the shared map. */
  method HoistLocal(local: Definitions, acc: Definitions) returns (r: Option<Definitions>)
    ensures r.Some? <==> Coherent(Bound(acc) + Bound(local))
    ensures r.Some? ==> Bound(r.value) == Bound(acc) + Bound(local)
  {
    hide Coherent;
    var merged := acc;
    var left := local.Keys;
    ghost var moved: set<Binding> := {};
    while left != {}
      invariant left <= local.Keys
      invariant moved == set name | name in local && name !in left :: Binding(name, local[name])
      invariant Bound(merged) == Bound(acc) + moved
    {
      var name :| name in left;
      BindOne(merged, name, local[name]);
      if name in merged && merged[name] != local[name] {
        assert Binding(name, local[name]) in Bound(local);
        if Coherent(Bound(acc) + Bound(local)) {
          CoherentPart(Bound(merged) + {Binding(name, local[name])}, Bound(acc) + Bound(local));
        }
        return None;
      }
      moved := moved + {Binding(name, local[name])};
      if name !in merged {
        merged := merged[name := local[name]];
      }
      left := left - {name};
    }
    assert moved == Bound(local);
    BoundIsCoherent(merged);
    r := Some(merged);
  }

  /** `hoist`: one definition map for the whole document, or a conflict. */
  method Hoist(t: Tree, acc: Definitions) returns (r: Option<Definitions>)
    ensures r.Some? <==> Coherent(Bound(acc) + TreeBindings(t))
    ensures r.Some? ==> Bound(r.value) == Bound(acc) + TreeBindings(t)
    decreases t
  {
    hide Coherent, Bound, ChildBindings;
    ghost var whole := Bound(acc) + TreeBindings(t);
    var local := HoistLocal(t.local, acc);
    if local.None? {
      if Coherent(whole) {
        CoherentPart(Bound(acc) + Bound(t.local), whole);
      }
      return None;
    }
    var merged := local.value;
    NoChildren(t.children);
    for i := 0 to |t.children|
      invariant Bound(merged) == Bound(acc) + Bound(t.local) + ChildBindings(t.children[..i])
    {
      ChildrenPrefix(t.children, i);
      var child := Hoist(t.children[i], merged);
      if child.None? {
        if Coherent(whole) {
          CoherentPart(Bound(merged) + TreeBindings(t.children[i]), whole);
        }
        return None;
      }
      merged := child.value;
    }
    assert t.children[..|t.children|] == t.children;
    assert Bound(merged) == whole;
    BoundIsCoherent(merged);
    r := Some(merged);
  }

  lemma NoChildren(children: seq<Tree>)
    ensures ChildBindings(children[..0]) == {}
  {
  }

  lemma {:induction false} ChildrenPrefix(children: seq<Tree>, i: nat)
    requires i < |children|
    ensures ChildBindings(children[..i + 1]) == ChildBindings(children[..i]) + TreeBindings(children[i])
    ensures ChildBindings(children[..i + 1]) <= ChildBindings(children)
    decreases |children|
  {
    hide TreeBindings;
    var n := |children| - 1;
    assert children[..i + 1][..i] == children[..i];
    if i < n {
      ChildrenPrefix(children[..n], i);
      assert children[..n][..i + 1] == children[..i + 1] && children[..n][..i] == children[..i];
    } else {
      assert children[..i + 1] == children;
    }
  }

  /** `finish_json_schema`. */
  method FinishJsonSchema(t: Tree) returns (r: Option<Definitions>)
    ensures r.Some? <==> Coherent(TreeBindings(t))
    ensures r.Some? ==> Bound(r.value) == TreeBindings(t)
  {
    assert Bound(map[]) == {} && {} + TreeBindings(t) == TreeBindings(t);
    r := Hoist(t, map[]);
  }

  // ---------------------------------------------------------------- one limits value

  /** Every node is plain, or holds what `bounded_json_schema` builds for some depth under the same limits. */
  ghost predicate FromLimits(t: Tree, limits: InputLimits) {
    && (t.reference.None? ==> t.local == map[])
    && (t.reference.Some? ==>
      exists top: nat :: OnlyLevels(t.local, top + 1, limits) && t.reference.value == LevelName(top))
    && forall i :: 0 <= i < |t.children| ==> FromLimits(t.children[i], limits)
  }

  ghost predicate IsLevel(b: Binding, limits: InputLimits) {
    exists level: nat :: b == Binding(LevelName(level), LevelDefinition(level, limits))
  }

  lemma {:induction false} TreeHoldsLevels(t: Tree, limits: InputLimits)
    requires FromLimits(t, limits)
    ensures forall b :: b in TreeBindings(t) ==> IsLevel(b, limits)
    decreases t, 1
  {
    hide LevelName, LevelDefinition;
    ChildrenHoldLevels(t.children, limits);
    forall b | b in Bound(t.local) ensures IsLevel(b, limits) {
      var top: nat :| OnlyLevels(t.local, top + 1, limits) && t.reference.value == LevelName(top);
      var level: nat :| level < top + 1 && b.name == LevelName(level);
      assert b == Binding(LevelName(level), LevelDefinition(level, limits));
    }
  }

  lemma {:induction false} ChildrenHoldLevels(children: seq<Tree>, limits: InputLimits)
    requires forall i :: 0 <= i < |children| ==> FromLimits(children[i], limits)
    ensures forall b :: b in ChildBindings(children) ==> IsLevel(b, limits)
    decreases children, 0
  {
    if children != [] {
      TreeHoldsLevels(children[|children| - 1], limits);
      ChildrenHoldLevels(children[..|children| - 1], limits);
    }
  }

  /** Definitions built from one limits value never conflict. */
  lemma HoistingNeverConflicts(t: Tree, limits: InputLimits)
    requires FromLimits(t, limits)
    ensures Coherent(TreeBindings(t))
  {
    hide LevelName, LevelDefinition;
    TreeHoldsLevels(t, limits);
    forall a, b | a in TreeBindings(t) && b in TreeBindings(t) && a.name == b.name ensures a == b {
      assert IsLevel(a, limits) && IsLevel(b, limits);
      var i: nat :| a == Binding(LevelName(i), LevelDefinition(i, limits));
      var j: nat :| b == Binding(LevelName(j), LevelDefinition(j, limits));
      LevelNameInjective(i, j);
    }
  }

  /** `node` occurs in `t`. */
  ghost predicate Inside(node: Tree, t: Tree) {
    node == t || exists i :: 0 <= i < |t.children| && Inside(node, t.children[i])
  }

  lemma {:induction false} InsideBindings(node: Tree, t: Tree, limits: InputLimits)
    requires Inside(node, t) && FromLimits(t, limits)
    ensures Bound(node.local) <= TreeBindings(t) && FromLimits(node, limits)
    decreases t
  {
    if node != t {
      var i :| 0 <= i < |t.children| && Inside(node, t.children[i]);
      InsideBindings(node, t.children[i], limits);
      ChildrenPrefix(t.children, i);
    }
  }

  /** After hoisting, every node's reference resolves, and admits exactly the values it admitted before. */
  lemma HoistingKeepsMeaning(t: Tree, node: Tree, limits: InputLimits, merged: Definitions, v: Json)
    requires FromLimits(t, limits) && Inside(node, t) && node.reference.Some? && Bound(merged) == TreeBindings(t)
    ensures node.reference.value in merged
    ensures Validates(v, node.reference.value, merged) <==> Validates(v, node.reference.value, node.local)
  {
    hide LevelName, LevelDefinition, Validates, OnlyLevels, HoldsLevels, Bound, TreeBindings, Inside;
    InsideBindings(node, t, limits);
    var top: nat :| OnlyLevels(node.local, top + 1, limits) && node.reference.value == LevelName(top);
    LevelsSurvive(node.local, merged, top, limits);
    LevelAdmits(v, top, merged, limits);
    LevelAdmits(v, top, node.local, limits);
  }

  lemma LevelsSurvive(local: Definitions, merged: Definitions, top: nat, limits: InputLimits)
    requires OnlyLevels(local, top + 1, limits) && Bound(local) <= Bound(merged)
    ensures HoldsLevels(local, top, limits) && HoldsLevels(merged, top, limits) && LevelName(top) in merged
  {
    hide LevelName, LevelDefinition;
    forall level: nat | level <= top
      ensures LevelName(level) in merged && merged[LevelName(level)] == LevelDefinition(level, limits)
    {
      assert Binding(LevelName(level), LevelDefinition(level, limits)) in Bound(local);
      assert Binding(LevelName(level), LevelDefinition(level, limits)) in Bound(merged);
    }
  }
}
