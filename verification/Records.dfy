/** Static and dynamic record counts, and the ceiling between them. */
module Records {
  import opened Common
  import opened JsonModel
  import opened Disclosure

  function CheckedAdd(a: nat, b: nat): Option<nat> {
    if a + b <= U64_MAX then Some(a + b) else None
  }

  function CheckedMul(a: nat, b: nat): Option<nat> {
    if a * b <= U64_MAX then Some(a * b) else None
  }

  // ---------------------------------------------------------------- static counts

  /** `maximum_record_count`: u64 arithmetic that reports overflow as `None`. */
  ghost function MaximumRecordCount(s: Shape): Option<nat>
    decreases s, 2
  {
    match s
    case Scalar(_) => Some(1)
    case Object(_, fields) => FoldFields(s, fields.Keys, 1)
    case List(_, maximumItems, _, item) =>
      match MaximumRecordCount(item)
      case None => None
      case Some(n) => CheckedMul(maximumItems, n)
  }

  ghost function FoldFields(s: Shape, keys: set<string>, total: nat): Option<nat>
    requires s.Object? && keys <= s.fields.Keys
    decreases s, 1, keys, 1
  {
    if keys == {} then Some(total)
    else
      var k :| k in keys;
      FoldFrom(s, keys, total, k)
  }

  /** One step of the fold, at the key it takes next. */
  ghost function FoldFrom(s: Shape, keys: set<string>, total: nat, k: string): Option<nat>
    requires s.Object? && keys <= s.fields.Keys && k in keys
    decreases s, 1, keys, 0
  {
    var nested := if s.fields[k].Scalar? then Some(0) else MaximumRecordCount(s.fields[k]);
    if nested.None? then None
    else
      var sum := CheckedAdd(total, nested.value);
      if sum.None? then None else FoldFields(s, keys - {k}, sum.value)
  }

  /** The same count over the unbounded naturals. */
  ghost function Worst(s: Shape): nat
    decreases s, 2
  {
    match s
    case Scalar(_) => 1
    case Object(_, fields) => 1 + WorstFields(s, fields.Keys)
    case List(_, maximumItems, _, item) => maximumItems * Worst(item)
  }

  ghost function WorstNested(s: Shape): nat
    decreases s, 3
  {
    if s.Scalar? then 0 else Worst(s)
  }

  ghost function WorstFields(s: Shape, keys: set<string>): nat
    requires s.Object? && keys <= s.fields.Keys
    decreases s, 1, keys
  {
    if keys == {} then 0
    else
      var k :| k in keys;
      WorstNested(s.fields[k]) + WorstFields(s, keys - {k})
  }

  /** The sum over fields does not depend on the order in which the keys are taken. */
  lemma {:induction false} WorstFieldsRemove(s: Shape, keys: set<string>, k: string)
    requires s.Object? && keys <= s.fields.Keys && k in keys
    ensures WorstFields(s, keys) == WorstNested(s.fields[k]) + WorstFields(s, keys - {k})
    decreases keys
  {
    var first :| first in keys
      && WorstFields(s, keys) == WorstNested(s.fields[first]) + WorstFields(s, keys - {first});
    if first != k {
      WorstFieldsRemove(s, keys - {first}, k);
      WorstFieldsRemove(s, keys - {k}, first);
      assert keys - {first} - {k} == keys - {k} - {first};
    }
  }

  lemma {:induction false} ScalarsAreFree(s: Shape, keys: set<string>)
    requires s.Object? && keys <= s.fields.Keys && forall k :: k in keys ==> s.fields[k].Scalar?
    ensures WorstFields(s, keys) == 0
    decreases keys
  {
    if keys != {} {
      var k :| k in keys;
      WorstFieldsRemove(s, keys, k);
      ScalarsAreFree(s, keys - {k});
    }
  }

  /** Every list bound of the shape is positive. */
  ghost predicate PositiveLists(s: Shape) {
    match s
    case Scalar(_) => true
    case Object(_, fields) => forall k :: k in fields ==> PositiveLists(fields[k])
    case List(_, maximumItems, _, item) => maximumItems > 0 && PositiveLists(item)
  }

  lemma {:induction false} ValidIsPositive(s: Shape, depth: nat)
    requires ValidShape(s, depth)
    ensures PositiveLists(s)
    decreases s
  {
    match s
    case Scalar(_) =>
    case Object(_, fields) =>
      forall k | k in fields ensures PositiveLists(fields[k]) {
        ValidIsPositive(fields[k], depth + 1);
      }
    case List(_, _, _, item) => ValidIsPositive(item, depth + 1);
  }

  /** A static count that is reported is exact; with positive list bounds only overflow is unreported. */
  lemma {:induction false} StaticCountIsExact(s: Shape)
    ensures MaximumRecordCount(s).Some? ==> MaximumRecordCount(s).value == Worst(s) <= U64_MAX
    ensures PositiveLists(s) ==> (MaximumRecordCount(s).None? <==> Worst(s) > U64_MAX)
    decreases s, 2
  {
    match s
    case Scalar(_) =>
    case Object(_, fields) =>
      FoldIsExact(s, fields.Keys, 1);
    case List(_, maximumItems, _, item) =>
      StaticCountIsExact(item);
      if PositiveLists(s) && MaximumRecordCount(item).None? {
        ProductAtLeast(maximumItems, Worst(item));
      }
  }

  lemma ProductAtLeast(a: nat, b: nat)
    requires a > 0
    ensures a * b >= b
  {
  }

  lemma {:induction false} FoldIsExact(s: Shape, keys: set<string>, total: nat)
    requires s.Object? && keys <= s.fields.Keys && total <= U64_MAX
    ensures FoldFields(s, keys, total).Some? ==>
              FoldFields(s, keys, total).value == total + WorstFields(s, keys) <= U64_MAX
    ensures PositiveLists(s) ==> (FoldFields(s, keys, total).None? <==> total + WorstFields(s, keys) > U64_MAX)
    decreases s, 1, keys
  {
    if keys != {} {
      var k :| k in keys && FoldFields(s, keys, total) == FoldFrom(s, keys, total, k);
      WorstFieldsRemove(s, keys, k);
      var child := s.fields[k];
      StaticCountIsExact(child);
      var nested := if child.Scalar? then Some(0) else MaximumRecordCount(child);
      assert FoldFrom(s, keys, total, k) ==
             if nested.None? || total + nested.value > U64_MAX then None
             else FoldFields(s, keys - {k}, total + nested.value);
      if total + WorstNested(child) <= U64_MAX {
        FoldIsExact(s, keys - {k}, total + WorstNested(child));
      }
    }
  }

  /** The program of `maximum_record_count`: any order of visiting the fields gives the same answer. */
  method CountRecords(s: Shape, ghost depth: nat) returns (r: Option<nat>)
    requires ValidShape(s, depth)
    ensures r == MaximumRecordCount(s)
    decreases s
  {
    hide FoldFields, WorstFields;
    ValidIsPositive(s, depth);
    StaticCountIsExact(s);
    match s
    case Scalar(_) => r := Some(1);
    case List(_, maximumItems, _, item) =>
      r := CountRecords(item, depth + 1);
      if r.Some? {
        r := CheckedMul(maximumItems, r.value);
      }
    case Object(_, fields) =>
      var total: nat := 1;
      var left := fields.Keys;
      while left != {}
        invariant left <= fields.Keys && total <= U64_MAX
        invariant total + WorstFields(s, left) == Worst(s)
      {
        var name :| name in left;
        WorstFieldsRemove(s, left, name);
        StaticCountIsExact(fields[name]);
        var nested := Some(0);
        if !fields[name].Scalar? {
          nested := CountRecords(fields[name], depth + 1);
        }
        if nested.None? || CheckedAdd(total, nested.value).None? {
          return None;
        }
        total := total + nested.value;
        left := left - {name};
      }
      NoFieldsLeft(s);
      r := Some(total);
  }

  lemma NoFieldsLeft(s: Shape)
    requires s.Object?
    ensures WorstFields(s, {}) == 0
  {
  }

  // ---------------------------------------------------------------- dynamic counts

  /** `actual_record_count`. */
  function ActualRecordCount(v: Json, s: Shape, depth: nat): Result<nat, DisclosureError>
    decreases v, 2
  {
    if depth > MAXIMUM_DISCLOSURE_SCHEMA_DEPTH then Err(ShapeMismatch)
    else if v.JNull? then Ok(0)
    else
      match s
      case Scalar(_) => Ok(1)
      case Object(_, fields) =>
        if v.JObject? then CountEntries(v.entries, fields, depth + 1, 1) else Err(ShapeMismatch)
      case List(_, maximumItems, _, item) =>
        if !v.JArray? then Err(ShapeMismatch)
        else if |v.items| > maximumItems then Err(ListLimitExceeded)
        else CountItems(v.items, item, depth + 1, 0)
  }

  function ActualNestedRecordCount(v: Json, s: Shape, depth: nat): Result<nat, DisclosureError>
    decreases v, 3
  {
    if s.Scalar? then Ok(0) else ActualRecordCount(v, s, depth)
  }

  function CountEntries(
    entries: seq<Entry>, fields: map<string, Shape>, depth: nat, total: nat): Result<nat, DisclosureError>
    decreases entries, 1
  {
    if entries == [] then Ok(total)
    else if entries[0].key !in fields then Err(UnknownField)
    else
      var n :- ActualNestedRecordCount(entries[0].value, fields[entries[0].key], depth);
      var sum := CheckedAdd(total, n);
      if sum.None? then Err(RecordLimitExceeded) else CountEntries(entries[1..], fields, depth, sum.value)
  }

  function CountItems(items: seq<Json>, item: Shape, depth: nat, total: nat): Result<nat, DisclosureError>
    decreases items, 1
  {
    if items == [] then Ok(total)
    else
      var n :- ActualRecordCount(items[0], item, depth);
      var sum := CheckedAdd(total, n);
      if sum.None? then Err(RecordLimitExceeded) else CountItems(items[1..], item, depth, sum.value)
  }

  ghost predicate Within(r: Result<nat, DisclosureError>, ceiling: nat) {
    match r
    case Ok(n) => n <= ceiling
    case Err(e) => e != RecordLimitExceeded
  }

  /** No value can count more than the worst case, so no checked addition overflows below it. */
  lemma {:induction false} DynamicCountIsBounded(v: Json, s: Shape, depth: nat)
    requires UniqueKeys(v) && Worst(s) <= U64_MAX
    ensures Within(ActualRecordCount(v, s, depth), Worst(s))
    decreases v, 2
  {
    if v.JObject? && s.Object? {
      EntriesAreBounded(v.entries, s, depth + 1, s.fields.Keys, 1);
    } else if v.JArray? && s.List? && |v.items| <= s.maximumItems {
      ProductMonotone(|v.items|, s.maximumItems, Worst(s.item));
      if |v.items| > 0 {
        ProductAtLeast(s.maximumItems, Worst(s.item));
        ItemsAreBounded(v.items, s.item, depth + 1, 0);
      }
    }
  }

  lemma ProductStep(n: nat, w: nat)
    requires n > 0
    ensures n * w == w + (n - 1) * w
  {
  }

  lemma ProductMonotone(a: nat, b: nat, c: nat)
    requires a <= b
    ensures a * c <= b * c
  {
  }

  lemma {:induction false} EntriesAreBounded(entries: seq<Entry>, s: Shape, depth: nat, keys: set<string>, total: nat)
    requires UniqueKeys(JObject(entries))
    requires s.Object? && keys <= s.fields.Keys
    requires forall i :: 0 <= i < |entries| && entries[i].key in s.fields ==> entries[i].key in keys
    requires total + WorstFields(s, keys) <= U64_MAX
    ensures Within(CountEntries(entries, s.fields, depth, total), total + WorstFields(s, keys))
    decreases entries, 1
  {
    if entries != [] && entries[0].key in s.fields {
      var k := entries[0].key;
      var rest := entries[1..];
      assert forall i :: 0 <= i < |rest| ==> rest[i] == entries[i + 1];
      WorstFieldsRemove(s, keys, k);
      if !s.fields[k].Scalar? {
        DynamicCountIsBounded(entries[0].value, s.fields[k], depth);
      }
      var n := ActualNestedRecordCount(entries[0].value, s.fields[k], depth);
      if n.Ok? {
        EntriesAreBounded(rest, s, depth, keys - {k}, total + n.value);
      }
    }
  }

  lemma {:induction false} ItemsAreBounded(items: seq<Json>, item: Shape, depth: nat, total: nat)
    requires forall i :: 0 <= i < |items| ==> UniqueKeys(items[i])
    requires Worst(item) <= U64_MAX
    requires total + |items| * Worst(item) <= U64_MAX
    ensures Within(CountItems(items, item, depth, total), total + |items| * Worst(item))
    decreases items, 1
  {
    hide Worst, ActualRecordCount, UniqueKeys;
    if items != [] {
      var w, rest := Worst(item), items[1..];
      DynamicCountIsBounded(items[0], item, depth);
      ProductStep(|items|, w);
      var n := ActualRecordCount(items[0], item, depth);
      if n.Ok? {
        assert |rest| == |items| - 1 && total + n.value + |rest| * w <= total + |items| * w;
        ItemsAreBounded(rest, item, depth, total + n.value);
      }
    }
  }

  // ---------------------------------------------------------------- tightness

  /** A value that fills every list and every field of a shape. */
  ghost function Fullest(s: Shape): Json
    decreases s, 2
  {
    match s
    case Scalar(_) => JBool(true)
    case Object(_, fields) => JObject(FullestEntries(s, fields.Keys))
    case List(_, maximumItems, _, item) => JArray(Copies(maximumItems, Fullest(item)))
  }

  ghost function FullestEntries(s: Shape, keys: set<string>): (entries: seq<Entry>)
    requires s.Object? && keys <= s.fields.Keys
    ensures forall i :: 0 <= i < |entries| ==> entries[i].key in keys
    decreases s, 1, keys
  {
    if keys == {} then []
    else
      var k :| k in keys;
      [Entry(k, Fullest(s.fields[k]))] + FullestEntries(s, keys - {k})
  }

  function Copies(n: nat, v: Json): (r: seq<Json>)
    ensures |r| == n && forall i :: 0 <= i < n ==> r[i] == v
  {
    if n == 0 then [] else [v] + Copies(n - 1, v)
  }

  /** The ceiling is attained by a well-formed value, which the checker accepts when the shape allows export. */
  lemma {:induction false} CeilingIsAttained(s: Shape, depth: nat)
    requires ValidShape(s, depth) && Worst(s) <= U64_MAX
    ensures ActualRecordCount(Fullest(s), s, depth) == Ok(Worst(s))
    ensures UniqueKeys(Fullest(s)) && !Fullest(s).JNull?
    decreases s, 2
  {
    match s
    case Scalar(_) =>
    case Object(_, fields) =>
      FieldsAreAttained(s, fields.Keys, depth, 1);
    case List(_, maximumItems, _, item) =>
      ProductAtLeast(maximumItems, Worst(item));
      CeilingIsAttained(item, depth + 1);
      ItemsAreAttained(maximumItems, item, depth + 1, 0);
  }

  lemma {:induction false} FieldsAreAttained(s: Shape, keys: set<string>, depth: nat, total: nat)
    requires s.Object? && keys <= s.fields.Keys && ValidShape(s, depth)
    requires total + WorstFields(s, keys) <= U64_MAX
    ensures CountEntries(FullestEntries(s, keys), s.fields, depth + 1, total) == Ok(total + WorstFields(s, keys))
    ensures UniqueKeys(JObject(FullestEntries(s, keys)))
    decreases s, 1, keys
  {
    if keys != {} {
      var entries := FullestEntries(s, keys);
      var k := entries[0].key;
      var rest := FullestEntries(s, keys - {k});
      assert entries == [Entry(k, Fullest(s.fields[k]))] + rest && entries[1..] == rest;
      WorstFieldsRemove(s, keys, k);
      if !s.fields[k].Scalar? {
        CeilingIsAttained(s.fields[k], depth + 1);
      }
      FieldsAreAttained(s, keys - {k}, depth, total + WorstNested(s.fields[k]));
      UniqueKeysCons(entries[0], rest);
    }
  }

  lemma UniqueKeysCons(first: Entry, rest: seq<Entry>)
    requires UniqueKeys(first.value) && UniqueKeys(JObject(rest))
    requires forall i :: 0 <= i < |rest| ==> rest[i].key != first.key
    ensures UniqueKeys(JObject([first] + rest))
  {
    var all := [first] + rest;
    assert forall i :: 1 <= i < |all| ==> all[i] == rest[i - 1];
  }

  lemma {:induction false} ItemsAreAttained(n: nat, item: Shape, depth: nat, total: nat)
    requires ActualRecordCount(Fullest(item), item, depth) == Ok(Worst(item))
    requires total + n * Worst(item) <= U64_MAX
    ensures CountItems(Copies(n, Fullest(item)), item, depth, total) == Ok(total + n * Worst(item))
    decreases n
  {
    if n > 0 {
      ProductStep(n, Worst(item));
      assert Copies(n, Fullest(item))[1..] == Copies(n - 1, Fullest(item));
      ItemsAreAttained(n - 1, item, depth, total + Worst(item));
    }
  }

  ghost predicate FreelyExportable(s: Shape) {
    && s.rule.disposition == Exportable
    && match s
       case Scalar(_) => true
       case Object(_, fields) => forall k :: k in fields ==> FreelyExportable(fields[k])
       case List(_, _, identity, item) => identity.None? && FreelyExportable(item)
  }

  /** Without identity contracts the extremal value is itself a disclosable result. */
  lemma {:induction false} FullestConforms(s: Shape)
    requires FreelyExportable(s)
    ensures Conforms(Fullest(s), s)
    decreases s, 2
  {
    match s
    case Scalar(_) =>
    case Object(_, fields) => FullestEntriesConform(s, fields.Keys);
    case List(_, maximumItems, _, item) => FullestConforms(item);
  }

  lemma {:induction false} FullestEntriesConform(s: Shape, keys: set<string>)
    requires s.Object? && keys <= s.fields.Keys && FreelyExportable(s)
    ensures forall i :: 0 <= i < |FullestEntries(s, keys)| ==>
              var e := FullestEntries(s, keys)[i];
              e.key in s.fields && Conforms(e.value, s.fields[e.key])
    decreases s, 1, keys
  {
    if keys != {} {
      var entries := FullestEntries(s, keys);
      var k := entries[0].key;
      assert entries[1..] == FullestEntries(s, keys - {k});
      FullestConforms(s.fields[k]);
      FullestEntriesConform(s, keys - {k});
      assert forall i :: 1 <= i < |entries| ==> entries[i] == entries[1..][i - 1];
    }
  }

  // ---------------------------------------------------------------- the GraphQL envelope

  /** `maximum_graphql_record_count`: the count below the single root field of the envelope. */
  ghost function MaximumGraphqlRecordCount(root: Shape): Option<nat> {
    if root.Object? && |root.fields| == 1 then
      var name :| name in root.fields;
      MaximumRecordCount(root.fields[name])
    else None
  }

  method CountGraphqlRecords(root: Shape) returns (r: Option<nat>)
    requires ValidShape(root, 0)
    ensures r == MaximumGraphqlRecordCount(root)
  {
    if !root.Object? || |root.fields| != 1 {
      return None;
    }
    assert root.fields.Keys != {} by { assert |root.fields.Keys| == 1; }
    var name :| name in root.fields.Keys;
    SingleKey(root.fields.Keys, name);
    r := CountRecords(root.fields[name], 1);
  }

  /** `evaluate_graphql_with_record_limit`, up to the summary that a successful check returns. */
  ghost function GraphqlFailure(value: Json, root: Shape, maximumRecords: u32): Option<DisclosureError> {
    if maximumRecords == 0 then Some(RecordLimitExceeded)
    else
      var failure := FirstFailure(value, root, 0);
      if failure.Some? then failure
      else if !value.JObject? || !root.Object? || |root.fields| != 1 then Some(ShapeMismatch)
      else
        var name :| name in root.fields;
        var result := Get(value.entries, name);
        if result.None? then Some(ShapeMismatch)
        else
          match ActualRecordCount(result.value, root.fields[name], 0)
          case Err(e) => Some(e)
          case Ok(n) => if n > maximumRecords then Some(RecordLimitExceeded) else None
  }

  method EvaluateGraphqlWithRecordLimit(value: Json, root: Shape, maximumRecords: u32)
    returns (r: Result<Evaluation, DisclosureError>)
    ensures GraphqlFailure(value, root, maximumRecords).Some? ==>
              r == Err(GraphqlFailure(value, root, maximumRecords).value)
    ensures GraphqlFailure(value, root, maximumRecords).None? ==> r.Ok? && EvaluationMeets(value, root, 0, r)
  {
    if maximumRecords == 0 {
      return Err(RecordLimitExceeded);
    }
    r := EvaluateNode(value, root, 0);
    if r.Err? {
      return;
    }
    if !value.JObject? || !root.Object? || |root.fields| != 1 {
      return Err(ShapeMismatch);
    }
    assert root.fields.Keys != {} by { assert |root.fields.Keys| == 1; }
    var name :| name in root.fields.Keys;
    SingleKey(root.fields.Keys, name);
    var result := Get(value.entries, name);
    if result.None? {
      return Err(ShapeMismatch);
    }
    var actual := ActualRecordCount(result.value, root.fields[name], 0);
    if actual.Err? {
      return Err(actual.error);
    }
    if actual.value > maximumRecords {
      return Err(RecordLimitExceeded);
    }
  }

  lemma SingleKey(keys: set<string>, name: string)
    requires |keys| == 1 && name in keys
    ensures keys == {name}
  {
    assert |keys - {name}| == 0;
  }

  ghost predicate OnlyOverflows(r: Result<nat, DisclosureError>) {
    r.Ok? || r.error == RecordLimitExceeded
  }

  /** A conforming value never meets a shape error while it is counted. */
  lemma {:induction false} ConformingCountOnlyOverflows(v: Json, s: Shape, depth: nat)
    requires ValidShape(s, depth) && Conforms(v, s)
    ensures OnlyOverflows(ActualRecordCount(v, s, depth))
    decreases v, 2
  {
    if v.JObject? && s.Object? {
      ConformingEntriesOnlyOverflow(v.entries, s.fields, depth + 1, 1);
    } else if v.JArray? && s.List? {
      ConformingItemsOnlyOverflow(v.items, s.item, depth + 1, 0);
    }
  }

  lemma {:induction false} ConformingEntriesOnlyOverflow(
    entries: seq<Entry>, fields: map<string, Shape>, depth: nat, total: nat)
    requires forall k :: k in fields ==> ValidShape(fields[k], depth)
    requires forall i :: 0 <= i < |entries| ==>
               entries[i].key in fields && Conforms(entries[i].value, fields[entries[i].key])
    ensures OnlyOverflows(CountEntries(entries, fields, depth, total))
    decreases entries, 1
  {
    if entries != [] {
      var shape := fields[entries[0].key];
      if !shape.Scalar? {
        ConformingCountOnlyOverflows(entries[0].value, shape, depth);
      }
      var n := ActualNestedRecordCount(entries[0].value, shape, depth);
      if n.Ok? {
        ConformingEntriesOnlyOverflow(entries[1..], fields, depth, total + n.value);
      }
    }
  }

  lemma {:induction false} ConformingItemsOnlyOverflow(items: seq<Json>, item: Shape, depth: nat, total: nat)
    requires ValidShape(item, depth)
    requires forall i :: 0 <= i < |items| ==> Conforms(items[i], item)
    ensures OnlyOverflows(CountItems(items, item, depth, total))
    decreases items, 1
  {
    if items != [] {
      ConformingCountOnlyOverflows(items[0], item, depth);
      var n := ActualRecordCount(items[0], item, depth);
      if n.Ok? {
        ConformingItemsOnlyOverflow(items[1..], item, depth, total + n.value);
      }
    }
  }

  /** A shape admitted under a ceiling discloses every conforming envelope under that ceiling. */
  lemma CompiledCeilingIsNeverExceeded(value: Json, root: Shape, maximumRecords: u32, name: string)
    requires ValidShape(root, 0) && root.Object? && root.fields.Keys == {name}
    requires MaximumGraphqlRecordCount(root).Some? && MaximumGraphqlRecordCount(root).value <= maximumRecords
    requires maximumRecords > 0
    requires UniqueKeys(value) && value.JObject? && Conforms(value, root)
    requires Get(value.entries, name).Some?
    ensures GraphqlFailure(value, root, maximumRecords).None?
  {
    assert |root.fields.Keys| == 1;
    assert forall k :: k in root.fields ==> k == name;
    var shape := root.fields[name];
    StaticCountIsExact(shape);
    AcceptsIffConforms(value, root, 0);
    GetIsAnEntry(value.entries, name);
    var result := Get(value.entries, name).value;
    var i :| 0 <= i < |value.entries| && value.entries[i] == Entry(name, result);
    assert UniqueKeys(value.entries[i].value);
    assert Conforms(value.entries[i].value, shape);
    Shallower(shape, 1);
    ConformingCountOnlyOverflows(result, shape, 0);
    DynamicCountIsBounded(result, shape, 0);
  }

  lemma {:induction false} Shallower(s: Shape, depth: nat)
    requires depth > 0 && ValidShape(s, depth)
    ensures ValidShape(s, depth - 1)
    decreases s
  {
    match s
    case Scalar(_) =>
    case Object(_, fields) =>
      forall k | k in fields ensures ValidShape(fields[k], depth) {
        Shallower(fields[k], depth + 1);
      }
    case List(_, _, _, item) => Shallower(item, depth + 1);
  }
}
