/** The disclosure of an aggregate query: exact record counts and exact labels. */
module Aggregate {
  import opened Common
  import opened JsonModel
  import opened Disclosure
  import opened Records

  datatype Operator = CountOf | MinOf | MaxOf | SumOf {
    function Label(): string {
      match this
      case CountOf => "COUNT"
      case MinOf => "MIN"
      case MaxOf => "MAX"
      case SumOf => "SUM"
    }
  }

  datatype AggregateField = AggregateField(
    name: string, groupable: bool, disposition: Disposition, classification: Classification, operators: set<Operator>)

  datatype AggregateEntity = AggregateEntity(defaultClassification: Classification, fields: seq<AggregateField>)

  datatype AggregateError = UnknownEntity | MissingSelection | InvalidGroup | InvalidMetric | MissingIdentity

  /** `semantic_name_key`: ASCII letters and digits, lower-cased. */
  function SemanticNameKey(s: string): string {
    if s == "" then ""
    else
      var rest := SemanticNameKey(s[1..]);
      var c := s[0];
      if 'A' <= c <= 'Z' then [c + 32 as char] + rest
      else if 'a' <= c <= 'z' || '0' <= c <= '9' then [c] + rest
      else rest
  }

  function FindByKey(entries: seq<Entry>, expected: string): Option<Json> {
    if entries == [] then None
    else if SemanticNameKey(entries[0].key) == SemanticNameKey(expected) then Some(entries[0].value)
    else FindByKey(entries[1..], expected)
  }

  /** `aggregate_argument_array_optional`. */
  function ArgumentArray(arguments: seq<Entry>, expected: string): Option<seq<Json>> {
    match FindByKey(arguments, expected)
    case Some(JArray(items)) => Some(items)
    case _ => None
  }

  function SemanticField(fields: seq<AggregateField>, selected: string): Option<AggregateField> {
    if fields == [] then None
    else if SemanticNameKey(fields[0].name) == SemanticNameKey(selected) then Some(fields[0])
    else SemanticField(fields[1..], selected)
  }

  predicate FieldExportable(f: AggregateField) {
    f.disposition == Exportable && f.classification != Secret
  }

  /** `aggregate_operator`. */
  function OperatorNamed(s: string): Option<Operator> {
    var key := SemanticNameKey(s);
    if key == "count" then Some(CountOf)
    else if key == "min" then Some(MinOf)
    else if key == "max" then Some(MaxOf)
    else if key == "sum" then Some(SumOf)
    else None
  }

  // ---------------------------------------------------------------- what a plan may select

  /** A grouping or metric as the disclosure will label it. */
  datatype Labelled = Labelled(field: Json, operator: Json, classification: Classification)

  function GroupOf(entity: AggregateEntity, value: Json): Option<Labelled> {
    if !value.JString? then None
    else
      match SemanticField(entity.fields, value.s)
      case None => None
      case Some(f) =>
        if f.groupable && FieldExportable(f) then Some(Labelled(JString(f.name), JNull, f.classification)) else None
  }

  function MetricOf(entity: AggregateEntity, value: Json): Option<Labelled> {
    if !value.JObject? then None
    else
      match FindByKey(value.entries, "operator")
      case Some(JString(text)) => (
        match OperatorNamed(text)
        case None => None
        case Some(operator) =>
          var tag := JString(operator.Label());
          match FindByKey(value.entries, "field")
          case Some(JString(selected)) => (
            match SemanticField(entity.fields, selected)
            case None => None
            case Some(f) =>
              if FieldExportable(f) && operator in f.operators
                then Some(Labelled(JString(f.name), tag, f.classification))
              else None)
          case Some(JNull) => if operator.CountOf? then Some(Labelled(JNull, tag, entity.defaultClassification))
            else None
          case None => if operator.CountOf? then Some(Labelled(JNull, tag, entity.defaultClassification)) else None
          case _ => None)
      case _ => None
  }

  ghost predicate AllGroups(entity: AggregateEntity, values: seq<Json>, labelled: seq<Labelled>) {
    |labelled| == |values| && forall i :: 0 <= i < |values| ==> GroupOf(entity, values[i]) == Some(labelled[i])
  }

  ghost predicate AllMetrics(entity: AggregateEntity, values: seq<Json>, labelled: seq<Labelled>) {
    |labelled| == |values| && forall i :: 0 <= i < |values| ==> MetricOf(entity, values[i]) == Some(labelled[i])
  }

  function GroupValues(arguments: seq<Entry>): seq<Json> {
    match ArgumentArray(arguments, "groupBy")
    case Some(items) => items
    case None => []
  }

  ghost predicate Selectable(entity: Option<AggregateEntity>, arguments: seq<Entry>) {
    && entity.Some?
    && ArgumentArray(arguments, "metrics").Some?
    && (forall v :: v in GroupValues(arguments) ==> GroupOf(entity.value, v).Some?)
    && (forall v :: v in ArgumentArray(arguments, "metrics").value ==> MetricOf(entity.value, v).Some?)
  }

  // ---------------------------------------------------------------- the shape

  /** The response names of an aggregate row, resolved against the finished schema. */
  datatype RowNames = RowNames(groups: string, metrics: string, values: seq<string>)

  /** The same, with the two identity fields found among the value fields. */
  datatype AggregateNames = AggregateNames(row: RowNames, field: string, operator: string) {
    function Values(): set<string> {
      set i | 0 <= i < |row.values| :: row.values[i]
    }
  }

  function FindName(values: seq<string>, expected: string): Option<string> {
    if values == [] then None
    else if SemanticNameKey(values[0]) == SemanticNameKey(expected) then Some(values[0])
    else FindName(values[1..], expected)
  }

  /** The lookup of both identity fields. */
  function IdentityNames(row: RowNames): Option<AggregateNames> {
    var field, operator := FindName(row.values, "field"), FindName(row.values, "operator");
    if field.Some? && operator.Some? then Some(AggregateNames(row, field.value, operator.value)) else None
  }

  lemma {:induction false} FoundName(values: seq<string>, expected: string)
    ensures FindName(values, expected).Some? ==>
      && FindName(values, expected).value in values
      && SemanticNameKey(FindName(values, expected).value) == SemanticNameKey(expected)
    ensures FindName(values, expected).None? ==> forall v :: v in values ==>
                                                   SemanticNameKey(v) != SemanticNameKey(expected)
  {
    if values != [] {
      FoundName(values[1..], expected);
    }
  }

  /** The two identity fields are value fields of the row, and never the same one. */
  lemma IdentityNamesDiffer(row: RowNames)
    ensures IdentityNames(row).Some? ==>
      var names := IdentityNames(row).value;
      names.field in names.Values() && names.operator in names.Values() && names.field != names.operator
  {
    FoundName(row.values, "field");
    FoundName(row.values, "operator");
    assert SemanticNameKey("field")[0] == 'f' && SemanticNameKey("operator")[0] == 'o';
  }

  function Labels(labelled: seq<Labelled>): seq<seq<Json>> {
    seq(|labelled|, i requires 0 <= i < |labelled| => [labelled[i].field, labelled[i].operator])
  }

  function HighestOr(labelled: seq<Labelled>, otherwise: Classification): Classification {
    if labelled == [] then otherwise else Highest(labelled)
  }

  function Highest(labelled: seq<Labelled>): Classification {
    if labelled == [] then Public
    else MaxClass(Highest(labelled[..|labelled| - 1]), labelled[|labelled| - 1].classification)
  }

  /** `aggregate_result_list`. */
  function ResultList(classification: Classification, names: AggregateNames, labels: seq<seq<Json>>): Shape {
    List(ExportableRule(classification),
         Max(Min(|labels|, U32_MAX), 1),
         Some(Identity([names.field, names.operator], labels)),
         Object(ExportableRule(classification), map name | name in names.Values() ::
           Scalar(ExportableRule(classification))))
  }

  function RowsShape(
    names: AggregateNames, groupClass: Classification, metricClass: Classification,
    groups: seq<seq<Json>>, metrics: seq<seq<Json>>, maximumGroups: u32): Shape
  {
    var rule := ExportableRule(MaxClass(groupClass, metricClass));
    List(rule, maximumGroups, None,
         Object(rule, map[names.row.groups := ResultList(groupClass, names, groups),
                          names.row.metrics := ResultList(metricClass, names, metrics)]))
  }

  /** What an accepted aggregate plan discloses, given how its selections are labelled. */
  ghost predicate IsDisclosureOf(
    s: Shape, names: AggregateNames, entity: AggregateEntity, arguments: seq<Entry>, maximumGroups: u32,
    groups: seq<Labelled>, metrics: seq<Labelled>)
    requires ArgumentArray(arguments, "metrics").Some?
  {
    && AllGroups(entity, GroupValues(arguments), groups)
    && AllMetrics(entity, ArgumentArray(arguments, "metrics").value, metrics)
    && s == RowsShape(names, HighestOr(groups, entity.defaultClassification),
      HighestOr(metrics, entity.defaultClassification),
                      Labels(groups), Labels(metrics), maximumGroups)
  }

  /** `exact_aggregate_disclosure`. */
  method ExactAggregateDisclosure(
    entity: Option<AggregateEntity>, row: RowNames, arguments: seq<Entry>, maximumGroups: u32)
    returns (r: Result<Shape, AggregateError>, groups: seq<Labelled>, metrics: seq<Labelled>)
    ensures r.Ok? <==> Selectable(entity, arguments) && IdentityNames(row).Some?
    ensures r.Ok? ==>
      IsDisclosureOf(r.value, IdentityNames(row).value, entity.value, arguments, maximumGroups, groups, metrics)
  {
    hide GroupOf, MetricOf, ArgumentArray, GroupValues, RowsShape, Labels, FindByKey, SemanticField, FindName;
    groups, metrics := [], [];
    if entity.None? {
      return Err(UnknownEntity), groups, metrics;
    }
    var groupValues, metricValues := GroupValues(arguments), ArgumentArray(arguments, "metrics");
    if metricValues.None? {
      return Err(MissingSelection), groups, metrics;
    }
    var groupClass, metricClass := None, None;
    for i := 0 to |groupValues|
      invariant AllGroups(entity.value, groupValues[..i], groups)
      invariant groupClass == if groups == [] then None else Some(Highest(groups))
    {
      var group := GroupOf(entity.value, groupValues[i]);
      if group.None? {
        return Err(InvalidGroup), groups, metrics;
      }
      var soFar := if groupClass.Some? then groupClass.value else Public;
      groupClass := Some(MaxClass(soFar, group.value.classification));
      assert (groups + [group.value])[..|groups|] == groups;
      groups := groups + [group.value];
    }
    assert groupValues[..|groupValues|] == groupValues;
    for i := 0 to |metricValues.value|
      invariant AllMetrics(entity.value, metricValues.value[..i], metrics)
      invariant metricClass == if metrics == [] then None else Some(Highest(metrics))
    {
      var metric := MetricOf(entity.value, metricValues.value[i]);
      if metric.None? {
        return Err(InvalidMetric), groups, metrics;
      }
      var soFar := if metricClass.Some? then metricClass.value else Public;
      metricClass := Some(MaxClass(soFar, metric.value.classification));
      assert (metrics + [metric.value])[..|metrics|] == metrics;
      metrics := metrics + [metric.value];
    }
    assert metricValues.value[..|metricValues.value|] == metricValues.value;
    var field, operator := FindName(row.values, "field"), FindName(row.values, "operator");
    if field.None? || operator.None? {
      return Err(MissingIdentity), groups, metrics;
    }
    var names := AggregateNames(row, field.value, operator.value);
    var g := if groupClass.Some? then groupClass.value else entity.value.defaultClassification;
    var m := if metricClass.Some? then metricClass.value else entity.value.defaultClassification;
    r := Ok(RowsShape(names, g, m, Labels(groups), Labels(metrics), maximumGroups));
  }

  // ---------------------------------------------------------------- the count is exact

  /** Records of one full answer: every row, its group values and its metric values. */
  function AggregateRecords(maximumGroups: nat, groups: nat, metrics: nat): nat {
    maximumGroups * (1 + Max(1, groups) + Max(1, metrics))
  }

  lemma ResultListWorst(classification: Classification, names: AggregateNames, labels: seq<seq<Json>>)
    requires |labels| <= U32_MAX
    ensures ResultList(classification, names, labels).List?
    ensures Worst(ResultList(classification, names, labels)) == Max(1, |labels|)
  {
    var s := ResultList(classification, names, labels);
    ScalarsAreFree(s.item, s.item.fields.Keys);
  }

  lemma RowsCount(s: Shape, groups: Shape, metrics: Shape, g: string, m: string)
    requires s.List? && s.identity.None? && s.maximumItems > 0 && s.item.Object?
    requires s.item.fields == map[g := groups, m := metrics] && g != m && !groups.Scalar? && !metrics.Scalar?
    requires ValidFieldName(g) && ValidFieldName(m)
    ensures Worst(s) == s.maximumItems * (1 + Worst(groups) + Worst(metrics))
    ensures ValidShape(s, 0) <==> ValidShape(groups, 2) && ValidShape(metrics, 2)
    ensures PositiveLists(s) <==> PositiveLists(groups) && PositiveLists(metrics)
  {
    var row := s.item;
    WorstFieldsRemove(row, row.fields.Keys, g);
    WorstFieldsRemove(row, row.fields.Keys - {g}, m);
    assert row.fields.Keys - {g} - {m} == {};
    assert ValidShape(row, 1) <==> ValidShape(groups, 2) && ValidShape(metrics, 2) by {
      assert row.fields[g] == groups && row.fields[m] == metrics;
    }
    assert PositiveLists(row) <==> PositiveLists(groups) && PositiveLists(metrics) by {
      assert row.fields[g] == groups && row.fields[m] == metrics;
    }
  }

  /** The response names are distinct, legal disclosure fields. */
  predicate ValidNames(names: AggregateNames) {
    && names.row.groups != names.row.metrics && names.field != names.operator
    && ValidFieldName(names.row.groups) && ValidFieldName(names.row.metrics)
    && ValidIdentityField(names.field) && ValidIdentityField(names.operator)
    && forall name :: name in names.Values() ==> ValidFieldName(name)
  }

  /** Every label is one that an identity may hold. */
  ghost predicate ValidLabels(labelled: seq<Labelled>) {
    && |labelled| <= U32_MAX
    && forall i :: 0 <= i < |labelled| ==>
         ValidIdentityValue(labelled[i].field) && ValidIdentityValue(labelled[i].operator)
  }

  lemma ResultListIsValidIff(classification: Classification, names: AggregateNames, labelled: seq<Labelled>)
    requires ValidNames(names)
    ensures ValidShape(ResultList(classification, names, Labels(labelled)), 2) <==> ValidLabels(labelled)
    ensures PositiveLists(ResultList(classification, names, Labels(labelled)))
  {
    var s := ResultList(classification, names, Labels(labelled));
    var identity := s.identity.value;
    assert ValidShape(s.item, 3);
    assert identity.fields[0] == names.field && identity.fields[1] == names.operator;
    assert ValidIdentity(identity, s.maximumItems) <==> ValidLabels(labelled) by {
      forall i | 0 <= i < |labelled|
        ensures ValidIdentityValue(labelled[i].field) && ValidIdentityValue(labelled[i].operator) <==>
                forall j :: 0 <= j < |identity.expected[i]| ==> ValidIdentityValue(identity.expected[i][j])
      {
        var pair := identity.expected[i];
        assert |pair| == 2 && pair[0] == labelled[i].field && pair[1] == labelled[i].operator;
      }
    }
  }

  /**
   * The static count of an aggregate disclosure is the product formula, overflow included. The disclosure is a valid
   * one exactly when its labels are: a field name may be too long to serve as one.
   */
  lemma AggregateCountIsExact(
    s: Shape, names: AggregateNames, entity: AggregateEntity, arguments: seq<Entry>, maximumGroups: u32,
    groups: seq<Labelled>, metrics: seq<Labelled>)
    requires ArgumentArray(arguments, "metrics").Some?
    requires IsDisclosureOf(s, names, entity, arguments, maximumGroups, groups, metrics)
    requires ValidNames(names) && maximumGroups > 0 && |groups| <= U32_MAX && |metrics| <= U32_MAX
    ensures ValidShape(s, 0) <==> ValidLabels(groups) && ValidLabels(metrics)
    ensures var n := AggregateRecords(maximumGroups, |groups|, |metrics|);
      MaximumRecordCount(s) == if n <= U64_MAX then Some(n) else None
  {
    hide GroupOf, MetricOf, ResultList, Labels, ValidIdentity, Worst, ValidShape, AllGroups, AllMetrics, ArgumentArray,
      GroupValues, HighestOr, MaximumRecordCount, IsLeaf, ValidFieldName, AggregateNames.Values;
    LabelCount(groups);
    LabelCount(metrics);
    var groupClass := HighestOr(groups, entity.defaultClassification);
    var metricClass := HighestOr(metrics, entity.defaultClassification);
    ResultListIsValidIff(groupClass, names, groups);
    ResultListIsValidIff(metricClass, names, metrics);
    ResultListWorst(groupClass, names, Labels(groups));
    ResultListWorst(metricClass, names, Labels(metrics));
    RowsCount(s, ResultList(groupClass, names, Labels(groups)), ResultList(metricClass, names, Labels(metrics)),
              names.row.groups, names.row.metrics);
    StaticCountIsExact(s);
  }

  lemma LabelCount(labelled: seq<Labelled>)
    ensures |Labels(labelled)| == |labelled|
  {
  }

  // ---------------------------------------------------------------- the labels are exact

  /** A result value labels what was asked for. */
  ghost predicate Answers(names: AggregateNames, value: Json, tag: Labelled) {
    && value.JObject?
    && Get(value.entries, names.field) == Some(tag.field)
    && Get(value.entries, names.operator) == Some(tag.operator)
    && forall i :: 0 <= i < |value.entries| ==>
         value.entries[i].key in names.Values() && IsLeaf(value.entries[i].value)
  }

  /** A non-null list of values passes exactly when it answers the selections, one for one and in order. */
  lemma ListPassesIffItAnswers(v: Json, classification: Classification, names: AggregateNames, labelled: seq<Labelled>)
    requires |labelled| <= U32_MAX
    ensures Conforms(v, ResultList(classification, names, Labels(labelled))) <==>
            v.JNull? || (v.JArray? && |v.items| == |labelled|
                         && forall i :: 0 <= i < |labelled| ==> Answers(names, v.items[i], labelled[i]))
  {
    var s := ResultList(classification, names, Labels(labelled));
    var labels := Labels(labelled);
    if v.JArray? && |v.items| == |labelled| {
      forall i | 0 <= i < |labelled|
        ensures Answers(names, v.items[i], labelled[i]) <==>
          ItemAnswers(names, v.items[i], labels[i]) && Conforms(v.items[i], s.item)
      {
        if v.items[i].JObject? {
          ItemConforms(v.items[i], s.item);
        }
      }
      IdentityIsAnswers(names, v.items, labels);
    }
  }

  ghost predicate ItemAnswers(names: AggregateNames, value: Json, tag: seq<Json>)
    requires |tag| == 2
  {
    && value.JObject?
    && Get(value.entries, names.field) == Some(tag[0])
    && Get(value.entries, names.operator) == Some(tag[1])
  }

  lemma IdentityIsAnswers(names: AggregateNames, items: seq<Json>, labels: seq<seq<Json>>)
    requires |items| == |labels| && forall i :: 0 <= i < |labels| ==> |labels[i]| == 2
    ensures IdentityHolds(items, Identity([names.field, names.operator], labels))
            <==> forall i :: 0 <= i < |labels| ==> ItemAnswers(names, items[i], labels[i])
  {
    var identity := Identity([names.field, names.operator], labels);
    forall i | 0 <= i < |labels|
      ensures ItemAnswers(names, items[i], labels[i]) <==>
              items[i].JObject? && forall j :: 0 <= j < 2 ==>
                                     Get(items[i].entries, identity.fields[j]) == Some(labels[i][j])
    {
      if items[i].JObject? && forall j :: 0 <= j < 2 ==>
                                Get(items[i].entries, identity.fields[j]) == Some(labels[i][j]) {
        assert Get(items[i].entries, identity.fields[0]) == Some(labels[i][0]);
        assert Get(items[i].entries, identity.fields[1]) == Some(labels[i][1]);
      }
    }
  }

  lemma ItemConforms(value: Json, item: Shape)
    requires item.Object? && item.rule.disposition == Exportable && value.JObject?
    requires forall k :: k in item.fields ==> item.fields[k].Scalar? && item.fields[k].rule.disposition == Exportable
    ensures Conforms(value, item) <==>
            forall i :: 0 <= i < |value.entries| ==>
              value.entries[i].key in item.fields && IsLeaf(value.entries[i].value)
  {
  }

  /** In every disclosed answer, each row's non-null lists carry the requested labels in the requested order. */
  lemma DisclosedRowsAreLabelled(
    v: Json, s: Shape, names: AggregateNames, entity: AggregateEntity, arguments: seq<Entry>, maximumGroups: u32,
    groups: seq<Labelled>, metrics: seq<Labelled>, row: nat, entry: nat)
    requires ArgumentArray(arguments, "metrics").Some? && names.row.groups != names.row.metrics
    requires IsDisclosureOf(s, names, entity, arguments, maximumGroups, groups, metrics)
    requires |groups| <= U32_MAX && |metrics| <= U32_MAX
    requires Conforms(v, s) && v.JArray? && row < |v.items| && v.items[row].JObject? && entry < |v.items[row].entries|
    ensures |v.items| <= maximumGroups
    ensures var e := v.items[row].entries[entry];
      && (e.key == names.row.groups || e.key == names.row.metrics)
      && var expected := if e.key == names.row.groups then groups else metrics;
         e.value.JNull? || (e.value.JArray? && |e.value.items| == |expected|
                            && forall i :: 0 <= i < |expected| ==> Answers(names, e.value.items[i], expected[i]))
  {
    var e := v.items[row].entries[entry];
    assert Conforms(v.items[row], s.item);
    assert Conforms(e.value, s.item.fields[e.key]);
    ListPassesIffItAnswers(e.value, HighestOr(groups, entity.defaultClassification), names, groups);
    ListPassesIffItAnswers(e.value, HighestOr(metrics, entity.defaultClassification), names, metrics);
  }
}
