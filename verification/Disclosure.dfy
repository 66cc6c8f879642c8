/** The disclosure checker: static shapes, evaluation of results, record ceilings. */
module Disclosure {
  import opened Common
  import opened JsonModel
  import opened TypeText

  const MAXIMUM_DISCLOSURE_SCHEMA_DEPTH: nat := 64
  const MAXIMUM_IDENTITY_FIELDS: nat := 8
  const MAXIMUM_IDENTITY_VALUE_BYTES: nat := 1_024

  datatype Classification = Public | Internal | Confidential | Restricted | Secret {
    function Level(): nat {
      match this
      case Public => 0
      case Internal => 1
      case Confidential => 2
      case Restricted => 3
      case Secret => 4
    }
  }

  function MaxClass(a: Classification, b: Classification): Classification {
    if a.Level() <= b.Level() then b else a
  }

  datatype Disposition = Exportable | NeverExport

  datatype Rule = Rule(classification: Classification, disposition: Disposition)

  datatype Identity = Identity(fields: seq<string>, expected: seq<seq<Json>>)

  datatype Shape =
    | Scalar(rule: Rule)
    | Object(rule: Rule, fields: map<string, Shape>)
    | List(rule: Rule, maximumItems: u32, identity: Option<Identity>, item: Shape)

  datatype DisclosureError =
    | NeverExported
    | UnknownField
    | ShapeMismatch
    | ListLimitExceeded
    | IdentityMismatch
    | RecordLimitExceeded

  datatype Evaluation = Evaluation(maximumClassification: Classification, selectedNodes: nat)

  function ExportableRule(c: Classification): Rule {
    Rule(c, Exportable)
  }

  // ---------------------------------------------------------------- validation of shapes

  predicate ValidFieldName(name: string) {
    name != "" && !("__" <= name)
  }

  /** `valid_identity_field`. */
  predicate ValidIdentityField(name: string) {
    ValidName(name) && !("__" <= name)
  }

  /** `char::is_control`. */
  predicate IsControl(c: char) {
    (c as int) < 0x20 || 0x7F <= c as int <= 0x9F
  }

  /** A leaf; if it is text, then present, bounded and printable. */
  predicate ValidIdentityValue(v: Json) {
    && IsLeaf(v)
    && (v.JString? ==> v.s != "" && ByteLength(v.s) <= MAXIMUM_IDENTITY_VALUE_BYTES && forall c :: c in v.s ==>
      !IsControl(c))
  }

  /** `AiDisclosureListIdentity::validate`. */
  predicate ValidIdentity(identity: Identity, maximumItems: nat) {
    && 0 < |identity.fields| <= MAXIMUM_IDENTITY_FIELDS
    && (forall i, j :: 0 <= i < j < |identity.fields| ==> identity.fields[i] != identity.fields[j])
    && (forall i :: 0 <= i < |identity.fields| ==> ValidIdentityField(identity.fields[i]))
    && |identity.expected| <= maximumItems
    && (forall i :: 0 <= i < |identity.expected| ==> |identity.expected[i]| == |identity.fields|)
    && (forall i, j :: 0 <= i < |identity.expected| && 0 <= j < |identity.expected[i]| ==>
                         ValidIdentityValue(identity.expected[i][j]))
  }

  /** `AiDisclosureShape::validate`. */
  predicate ValidShape(s: Shape, depth: nat) {
    && depth <= MAXIMUM_DISCLOSURE_SCHEMA_DEPTH
    && match s
       case Scalar(_) => true
       case Object(_, fields) =>
         forall k :: k in fields ==> ValidFieldName(k) && ValidShape(fields[k], depth + 1)
       case List(_, maximumItems, identity, item) =>
         && maximumItems > 0
         && (identity.Some? ==> ValidIdentity(identity.value, maximumItems) && item.Object?)
         && ValidShape(item, depth + 1)
  }

  // ---------------------------------------------------------------- evaluation

  predicate IdentityHolds(items: seq<Json>, identity: Identity) {
    && |items| == |identity.expected|
    && forall i :: 0 <= i < |items| ==>
         && items[i].JObject?
         && forall j :: 0 <= j < |identity.fields| && j < |identity.expected[i]| ==>
              Get(items[i].entries, identity.fields[j]) == Some(identity.expected[i][j])
  }

  /** The depth-free meaning of a shape: every visited node is exportable and fits its shape. */
  ghost predicate Conforms(v: Json, s: Shape) {
    && s.rule.disposition == Exportable
    && (v.JNull? ||
        match s
        case Scalar(_) => IsLeaf(v)
        case Object(_, fields) =>
          v.JObject? && forall i :: 0 <= i < |v.entries| ==>
            v.entries[i].key in fields && Conforms(v.entries[i].value, fields[v.entries[i].key])
        case List(_, maximumItems, identity, item) =>
          && v.JArray?
          && |v.items| <= maximumItems
          && (identity.Some? ==> IdentityHolds(v.items, identity.value))
          && forall i :: 0 <= i < |v.items| ==> Conforms(v.items[i], item))
  }

  /** The first failure of a traversal in document order, if there is one. */
  function FirstFailure(v: Json, s: Shape, depth: nat): (r: Option<DisclosureError>)
    decreases v, 1
  {
    if depth > MAXIMUM_DISCLOSURE_SCHEMA_DEPTH then Some(ShapeMismatch)
    else if s.rule.disposition == NeverExport then Some(NeverExported)
    else if v.JNull? then None
    else
      match s
      case Scalar(_) => if IsLeaf(v) then None else Some(ShapeMismatch)
      case Object(_, fields) =>
        if v.JObject? then FirstFieldFailure(v.entries, fields, depth + 1) else Some(ShapeMismatch)
      case List(_, maximumItems, identity, item) =>
        if !v.JArray? then Some(ShapeMismatch)
        else if |v.items| > maximumItems then Some(ListLimitExceeded)
        else if identity.Some? && !IdentityHolds(v.items, identity.value) then Some(IdentityMismatch)
        else FirstItemFailure(v.items, item, depth + 1)
  }

  function FirstFieldFailure(entries: seq<Entry>, fields: map<string, Shape>, depth: nat): (r: Option<DisclosureError>)
    decreases entries, 0
  {
    if entries == [] then None
    else if entries[0].key !in fields then Some(UnknownField)
    else
      var failure := FirstFailure(entries[0].value, fields[entries[0].key], depth);
      if failure.Some? then failure else FirstFieldFailure(entries[1..], fields, depth)
  }

  function FirstItemFailure(items: seq<Json>, item: Shape, depth: nat): (r: Option<DisclosureError>)
    decreases items, 0
  {
    if items == [] then None
    else
      var failure := FirstFailure(items[0], item, depth);
      if failure.Some? then failure else FirstItemFailure(items[1..], item, depth)
  }

  /** Nodes of a conforming value that the checker looks at. */
  function NodeCount(v: Json): (n: nat)
    ensures n >= 1
    decreases v, 1
  {
    match v
    case JArray(items) => 1 + ItemNodes(items)
    case JObject(entries) => 1 + EntryNodes(entries)
    case _ => 1
  }

  function ItemNodes(items: seq<Json>): nat
    decreases items, 0
  {
    if items == [] then 0 else NodeCount(items[0]) + ItemNodes(items[1..])
  }

  function EntryNodes(entries: seq<Entry>): nat
    decreases entries, 0
  {
    if entries == [] then 0 else NodeCount(entries[0].value) + EntryNodes(entries[1..])
  }

  /** The rules met when a value is checked against a shape. */
  ghost predicate Visits(v: Json, s: Shape, rule: Rule) {
    || rule == s.rule
    || match (v, s)
       case (JObject(entries), Object(_, fields)) =>
         exists i :: 0 <= i < |entries| && entries[i].key in fields
                     && Visits(entries[i].value, fields[entries[i].key], rule)
       case (JArray(items), List(_, _, _, item)) =>
         exists i :: 0 <= i < |items| && Visits(items[i], item, rule)
       case _ => false
  }

  ghost predicate IsMaximumClass(v: Json, s: Shape, c: Classification) {
    && (exists rule :: Visits(v, s, rule) && rule.classification == c)
    && (forall rule :: Visits(v, s, rule) ==> rule.classification.Level() <= c.Level())
  }

  method MergeEvaluation(target: Evaluation, source: Evaluation) returns (r: Evaluation)
    ensures r == Evaluation(MaxClass(target.maximumClassification, source.maximumClassification),
                            Min(target.selectedNodes + source.selectedNodes, U64_MAX))
  {
    r := Evaluation(MaxClass(target.maximumClassification, source.maximumClassification),
                    Min(target.selectedNodes + source.selectedNodes, U64_MAX));
  }

  lemma FieldFailureStep(entries: seq<Entry>, fields: map<string, Shape>, depth: nat, i: nat)
    requires i < |entries|
    ensures entries[i..][1..] == entries[i + 1..]
    ensures FirstFieldFailure(entries[i..], fields, depth) ==
            if entries[i].key !in fields then Some(UnknownField)
            else
              var failure := FirstFailure(entries[i].value, fields[entries[i].key], depth);
              if failure.Some? then failure else FirstFieldFailure(entries[i + 1..], fields, depth)
  {
    assert entries[i..][1..] == entries[i + 1..];
  }

  lemma ItemFailureStep(items: seq<Json>, item: Shape, depth: nat, i: nat)
    requires i < |items|
    ensures items[i..][1..] == items[i + 1..]
    ensures FirstItemFailure(items[i..], item, depth) ==
            var failure := FirstFailure(items[i], item, depth);
            if failure.Some? then failure else FirstItemFailure(items[i + 1..], item, depth)
  {
    assert items[i..][1..] == items[i + 1..];
  }

  lemma {:induction false} EntryNodesSplit(a: seq<Entry>, b: seq<Entry>)
    ensures EntryNodes(a + b) == EntryNodes(a) + EntryNodes(b)
  {
    if a == [] {
      assert a + b == b;
    } else {
      assert (a + b)[1..] == a[1..] + b;
      EntryNodesSplit(a[1..], b);
    }
  }

  lemma {:induction false} ItemNodesSplit(a: seq<Json>, b: seq<Json>)
    ensures ItemNodes(a + b) == ItemNodes(a) + ItemNodes(b)
  {
    if a == [] {
      assert a + b == b;
    } else {
      assert (a + b)[1..] == a[1..] + b;
      ItemNodesSplit(a[1..], b);
    }
  }

  lemma VisitsSnoc(v: Json, s: Shape, prefix: Json, last: Json, child: Shape, before: Classification, c: Classification)
    requires IsMaximumClass(prefix, s, before) && IsMaximumClass(last, child, c)
    requires forall rule :: Visits(v, s, rule) <==> Visits(prefix, s, rule) || Visits(last, child, rule)
    ensures IsMaximumClass(v, s, MaxClass(before, c))
  {
  }

  /** The whole result of an evaluation, stated without the traversal that computes it. */
  ghost predicate EvaluationMeets(v: Json, s: Shape, depth: nat, r: Result<Evaluation, DisclosureError>) {
    match FirstFailure(v, s, depth)
    case Some(error) => r == Err(error)
    case None =>
      && r.Ok?
      && r.value.selectedNodes == Min(NodeCount(v), U64_MAX)
      && IsMaximumClass(v, s, r.value.maximumClassification)
  }

  method EvaluateNode(v: Json, s: Shape, depth: nat) returns (r: Result<Evaluation, DisclosureError>)
    ensures EvaluationMeets(v, s, depth, r)
    decreases v, 1
  {
    if depth > MAXIMUM_DISCLOSURE_SCHEMA_DEPTH {
      return Err(ShapeMismatch);
    }
    if s.rule.disposition == NeverExport {
      return Err(NeverExported);
    }
    var evaluation := Evaluation(s.rule.classification, 1);
    if v.JNull? {
      assert Visits(v, s, s.rule);
      return Ok(evaluation);
    }
    match s
    case Scalar(_) =>
      assert Visits(v, s, s.rule);
      if IsLeaf(v) { return Ok(evaluation); } else { return Err(ShapeMismatch); }
    case Object(_, fields) =>
      if !v.JObject? { return Err(ShapeMismatch); }
      r := EvaluateFields(v.entries, s, depth);
      assert v == JObject(v.entries);
    case List(_, maximumItems, identity, item) =>
      if !v.JArray? { return Err(ShapeMismatch); }
      if |v.items| > maximumItems { return Err(ListLimitExceeded); }
      if identity.Some? && !IdentityHolds(v.items, identity.value) { return Err(IdentityMismatch); }
      r := EvaluateItems(v.items, s, depth);
      assert v == JArray(v.items);
  }

  method EvaluateFields(entries: seq<Entry>, s: Shape, depth: nat) returns (r: Result<Evaluation, DisclosureError>)
    requires s.Object?
    ensures match FirstFieldFailure(entries, s.fields, depth + 1)
            case Some(error) => r == Err(error)
            case None =>
              && r.Ok?
              && r.value.selectedNodes == Min(1 + EntryNodes(entries), U64_MAX)
              && IsMaximumClass(JObject(entries), s, r.value.maximumClassification)
    decreases entries, 0
  {
    hide IsMaximumClass, FirstFailure;
    var evaluation := Evaluation(s.rule.classification, 1);
    var i := 0;
    assert entries[0..] == entries && entries[..0] == [];
    EmptyClass(JObject([]), s);
    while i < |entries|
      invariant i <= |entries|
      invariant FirstFieldFailure(entries, s.fields, depth + 1) == FirstFieldFailure(entries[i..], s.fields, depth + 1)
      invariant evaluation.selectedNodes == Min(1 + EntryNodes(entries[..i]), U64_MAX)
      invariant IsMaximumClass(JObject(entries[..i]), s, evaluation.maximumClassification)
    {
      FieldFailureStep(entries, s.fields, depth + 1, i);
      var entry := entries[i];
      if entry.key !in s.fields {
        return Err(UnknownField);
      }
      var child := EvaluateNode(entry.value, s.fields[entry.key], depth + 1);
      if child.Err? {
        return child;
      }
      ghost var before := evaluation.maximumClassification;
      evaluation := MergeEvaluation(evaluation, child.value);
      FieldMerged(entries, s, i, before, child.value.maximumClassification);
      i := i + 1;
    }
    assert entries[..i] == entries;
    r := Ok(evaluation);
  }

  method EvaluateItems(items: seq<Json>, s: Shape, depth: nat) returns (r: Result<Evaluation, DisclosureError>)
    requires s.List?
    ensures match FirstItemFailure(items, s.item, depth + 1)
            case Some(error) => r == Err(error)
            case None =>
              && r.Ok?
              && r.value.selectedNodes == Min(1 + ItemNodes(items), U64_MAX)
              && IsMaximumClass(JArray(items), s, r.value.maximumClassification)
    decreases items, 0
  {
    hide IsMaximumClass, FirstFailure;
    var evaluation := Evaluation(s.rule.classification, 1);
    var i := 0;
    assert items[0..] == items && items[..0] == [];
    EmptyClass(JArray([]), s);
    while i < |items|
      invariant i <= |items|
      invariant FirstItemFailure(items, s.item, depth + 1) == FirstItemFailure(items[i..], s.item, depth + 1)
      invariant evaluation.selectedNodes == Min(1 + ItemNodes(items[..i]), U64_MAX)
      invariant IsMaximumClass(JArray(items[..i]), s, evaluation.maximumClassification)
    {
      ItemFailureStep(items, s.item, depth + 1, i);
      var child := EvaluateNode(items[i], s.item, depth + 1);
      if child.Err? {
        return child;
      }
      ghost var before := evaluation.maximumClassification;
      evaluation := MergeEvaluation(evaluation, child.value);
      ItemMerged(items, s, i, before, child.value.maximumClassification);
      i := i + 1;
    }
    assert items[..i] == items;
    r := Ok(evaluation);
  }

  /** An empty container is as classified as its own rule. */
  lemma EmptyClass(v: Json, s: Shape)
    requires v == JObject([]) || v == JArray([])
    ensures IsMaximumClass(v, s, s.rule.classification)
  {
    assert Visits(v, s, s.rule);
  }

  lemma VisitsField(entries: seq<Entry>, s: Shape, i: nat)
    requires s.Object? && i < |entries| && entries[i].key in s.fields
    ensures forall rule :: Visits(JObject(entries[..i + 1]), s, rule) <==>
              Visits(JObject(entries[..i]), s, rule) || Visits(entries[i].value, s.fields[entries[i].key], rule)
  {
    var a, b := entries[..i], entries[..i + 1];
    forall rule
      ensures Visits(JObject(b), s, rule) <==>
        Visits(JObject(a), s, rule) || Visits(entries[i].value, s.fields[entries[i].key], rule)
    {
      if Visits(JObject(a), s, rule) && rule != s.rule {
        var j :| 0 <= j < |a| && a[j].key in s.fields && Visits(a[j].value, s.fields[a[j].key], rule);
        assert b[j] == a[j];
      }
      if Visits(entries[i].value, s.fields[entries[i].key], rule) {
        assert b[i] == entries[i];
      }
      if Visits(JObject(b), s, rule) && rule != s.rule {
        var j :| 0 <= j < |b| && b[j].key in s.fields && Visits(b[j].value, s.fields[b[j].key], rule);
        assert j < i ==> a[j] == b[j];
      }
    }
  }

  lemma VisitsItem(items: seq<Json>, s: Shape, i: nat)
    requires s.List? && i < |items|
    ensures forall rule :: Visits(JArray(items[..i + 1]), s, rule) <==>
              Visits(JArray(items[..i]), s, rule) || Visits(items[i], s.item, rule)
  {
    var a, b := items[..i], items[..i + 1];
    forall rule
      ensures Visits(JArray(b), s, rule) <==> Visits(JArray(a), s, rule) || Visits(items[i], s.item, rule)
    {
      if Visits(JArray(a), s, rule) && rule != s.rule {
        var j :| 0 <= j < |a| && Visits(a[j], s.item, rule);
        assert b[j] == a[j];
      }
      if Visits(items[i], s.item, rule) {
        assert b[i] == items[i];
      }
      if Visits(JArray(b), s, rule) && rule != s.rule {
        var j :| 0 <= j < |b| && Visits(b[j], s.item, rule);
        assert j < i ==> a[j] == b[j];
      }
    }
  }

  lemma FieldMerged(entries: seq<Entry>, s: Shape, i: nat, before: Classification, c: Classification)
    requires s.Object? && i < |entries| && entries[i].key in s.fields
    requires IsMaximumClass(JObject(entries[..i]), s, before)
    requires IsMaximumClass(entries[i].value, s.fields[entries[i].key], c)
    ensures IsMaximumClass(JObject(entries[..i + 1]), s, MaxClass(before, c))
    ensures EntryNodes(entries[..i + 1]) == EntryNodes(entries[..i]) + NodeCount(entries[i].value)
  {
    VisitsField(entries, s, i);
    VisitsSnoc(JObject(entries[..i + 1]), s, JObject(entries[..i]), entries[i].value, s.fields[entries[i].key],
      before, c);
    assert entries[..i + 1] == entries[..i] + [entries[i]];
    EntryNodesSplit(entries[..i], [entries[i]]);
  }

  lemma ItemMerged(items: seq<Json>, s: Shape, i: nat, before: Classification, c: Classification)
    requires s.List? && i < |items|
    requires IsMaximumClass(JArray(items[..i]), s, before) && IsMaximumClass(items[i], s.item, c)
    ensures IsMaximumClass(JArray(items[..i + 1]), s, MaxClass(before, c))
    ensures ItemNodes(items[..i + 1]) == ItemNodes(items[..i]) + NodeCount(items[i])
  {
    VisitsItem(items, s, i);
    VisitsSnoc(JArray(items[..i + 1]), s, JArray(items[..i]), items[i], s.item, before, c);
    assert items[..i + 1] == items[..i] + [items[i]];
    ItemNodesSplit(items[..i], [items[i]]);
  }

  /** On a validated shape the depth guard is inert: the checker accepts exactly the conforming values. */
  lemma {:induction false} AcceptsIffConforms(v: Json, s: Shape, depth: nat)
    requires ValidShape(s, depth)
    ensures FirstFailure(v, s, depth).None? <==> Conforms(v, s)
    decreases v, 1
  {
    if v.JObject? && s.Object? {
      FieldsAcceptIffConform(v.entries, s.fields, depth + 1);
    } else if v.JArray? && s.List? {
      ItemsAcceptIffConform(v.items, s.item, depth + 1);
    }
  }

  lemma {:induction false} FieldsAcceptIffConform(entries: seq<Entry>, fields: map<string, Shape>, depth: nat)
    requires forall k :: k in fields ==> ValidShape(fields[k], depth)
    ensures FirstFieldFailure(entries, fields, depth).None? <==>
            forall i :: 0 <= i < |entries| ==>
              entries[i].key in fields && Conforms(entries[i].value, fields[entries[i].key])
    decreases entries, 0
  {
    if entries != [] {
      var rest := entries[1..];
      assert forall i :: 1 <= i < |entries| ==> entries[i] == rest[i - 1];
      FieldsAcceptIffConform(rest, fields, depth);
      if entries[0].key in fields {
        AcceptsIffConforms(entries[0].value, fields[entries[0].key], depth);
      }
    }
  }

  lemma {:induction false} ItemsAcceptIffConform(items: seq<Json>, item: Shape, depth: nat)
    requires ValidShape(item, depth)
    ensures FirstItemFailure(items, item, depth).None? <==>
            forall i :: 0 <= i < |items| ==> Conforms(items[i], item)
    decreases items, 0
  {
    if items != [] {
      var rest := items[1..];
      assert forall i :: 1 <= i < |items| ==> items[i] == rest[i - 1];
      AcceptsIffConforms(items[0], item, depth);
      ItemsAcceptIffConform(rest, item, depth);
    }
  }
}
