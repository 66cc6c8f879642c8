/** The response names of an aggregate row, looked up in the finished schema. */
module AggregateRows {
  import opened Common
  import opened TypeText
  import opened Schema
  import opened Arguments
  import opened Aggregate

  function Spelled(fields: seq<SchemaField>, expected: string): seq<SchemaField> {
    if fields == [] then []
    else (if EqIgnoreCase(fields[0].name, expected) then [fields[0]] else []) + Spelled(fields[1..], expected)
  }

  /** `find_case_insensitive`: the one field with the expected name in any case. */
  function FindIgnoringCase(fields: seq<SchemaField>, expected: string): Option<SchemaField> {
    var matches := Spelled(fields, expected);
    if |matches| == 1 then Some(matches[0]) else None
  }

  /** `aggregate_output`: a list of rows with groups and metrics, each a list of four named values. */
  function AggregateRow(types: Types, ty: Type): Option<RowNames> {
    if !ty.ListOf? || !IsObject(types, ty.item.Base()) then None
    else
      var row := types[ty.item.Base()].fields;
      var groups, metrics := FindIgnoringCase(row, "groups"), FindIgnoringCase(row, "metrics");
      if groups.None? || metrics.None? || !groups.value.ty.ListOf? || !IsObject(types, groups.value.ty.item.Base())
        then None
      else
        var values := types[groups.value.ty.item.Base()].fields;
        var field, operator := FindIgnoringCase(values, "field"), FindIgnoringCase(values, "operator");
        var kind, value := FindIgnoringCase(values, "kind"), FindIgnoringCase(values, "value");
        if field.None? || operator.None? || kind.None? || value.None? then None
        else
          Some(RowNames(groups.value.name, metrics.value.name,
                        [field.value.name, operator.value.name, kind.value.name, value.value.name]))
  }

  // ---------------------------------------------------------------- the lookup is exact

  lemma {:induction false} SpelledMembers(fields: seq<SchemaField>, expected: string, f: SchemaField)
    ensures f in Spelled(fields, expected) <==> f in fields && EqIgnoreCase(f.name, expected)
    decreases |fields|
  {
    hide EqIgnoreCase;
    if fields != [] {
      assert fields == [fields[0]] + fields[1..];
      SpelledMembers(fields[1..], expected, f);
    }
  }

  /** With distinct names, a field is found exactly when it alone has the expected name up to case. */
  lemma {:induction false} FoundIsOnlySpelling(fields: seq<SchemaField>, expected: string, f: SchemaField)
    requires DistinctFieldNames(fields)
    ensures FindIgnoringCase(fields, expected) == Some(f) <==>
      && f in fields && EqIgnoreCase(f.name, expected)
      && forall g :: g in fields && EqIgnoreCase(g.name, expected) ==> g == f
  {
    hide EqIgnoreCase;
    var matches := Spelled(fields, expected);
    forall g ensures g in matches <==> g in fields && EqIgnoreCase(g.name, expected) {
      SpelledMembers(fields, expected, g);
    }
    SpelledIsDistinct(fields, expected);
    FirstTwoDiffer(matches);
    if f in matches && (forall g :: g in matches ==> g == f) {
      forall i | 0 <= i < |matches| ensures matches[i] == f {
        assert matches[i] in matches;
      }
    }
  }

  lemma FirstTwoDiffer(fields: seq<SchemaField>)
    ensures DistinctFieldNames(fields) && |fields| > 1 ==> fields[0] != fields[1]
  {
  }

  lemma {:induction false} SpelledIsDistinct(fields: seq<SchemaField>, expected: string)
    requires DistinctFieldNames(fields)
    ensures DistinctFieldNames(Spelled(fields, expected))
    decreases |fields|
  {
    hide EqIgnoreCase;
    if fields != [] {
      var rest := fields[1..];
      assert forall i :: 0 <= i < |rest| ==> rest[i] == fields[i + 1];
      SpelledIsDistinct(rest, expected);
      forall i | 0 <= i < |Spelled(rest, expected)| ensures Spelled(rest, expected)[i].name != fields[0].name {
        SpelledMembers(rest, expected, Spelled(rest, expected)[i]);
      }
    }
  }

  // ---------------------------------------------------------------- what a found row guarantees

  lemma {:induction false} SameCaseSameKey(a: string, b: string)
    requires EqIgnoreCase(a, b)
    ensures SemanticNameKey(a) == SemanticNameKey(b)
    decreases |a|
  {
    assert |Lower(a)| == |a| && |Lower(b)| == |b|;
    if a != "" {
      assert Lower(a)[0] == LowerChar(a[0]) && Lower(b)[0] == LowerChar(b[0]);
      assert Lower(a[1..]) == Lower(a)[1..] && Lower(b[1..]) == Lower(b)[1..];
      SameCaseSameKey(a[1..], b[1..]);
    }
  }

  lemma FoundIsSpelled(fields: seq<SchemaField>, expected: string)
    requires FindIgnoringCase(fields, expected).Some?
    ensures EqIgnoreCase(FindIgnoringCase(fields, expected).value.name, expected)
  {
    SpelledMembers(fields, expected, FindIgnoringCase(fields, expected).value);
  }

  lemma OtherSpelling(a: string, b: string, x: string, y: string)
    requires EqIgnoreCase(a, x) && EqIgnoreCase(b, y) && Lower(x) != Lower(y)
    ensures a != b
  {
  }

  lemma ExpectedNamesDiffer()
    ensures Lower("groups") != Lower("metrics") && Lower("field") != Lower("operator")
  {
    assert Lower("groups")[0] == 'g' && Lower("metrics")[0] == 'm';
    assert Lower("field")[0] == 'f' && Lower("operator")[0] == 'o';
  }

  /** A row that the schema offers has two different lists, and its identity fields are always found. */
  lemma AggregateRowIsUsable(types: Types, ty: Type)
    requires AggregateRow(types, ty).Some?
    ensures var row := AggregateRow(types, ty).value;
      && row.groups != row.metrics
      && IdentityNames(row) == Some(AggregateNames(row, row.values[0], row.values[1]))
  {
    hide EqIgnoreCase, FindIgnoringCase, SemanticNameKey, Lower;
    var row := AggregateRow(types, ty).value;
    var rows := types[ty.item.Base()].fields;
    FoundIsSpelled(rows, "groups");
    FoundIsSpelled(rows, "metrics");
    ExpectedNamesDiffer();
    OtherSpelling(row.groups, row.metrics, "groups", "metrics");
    var values := types[FindIgnoringCase(rows, "groups").value.ty.item.Base()].fields;
    FoundIsSpelled(values, "field");
    FoundIsSpelled(values, "operator");
    IdentitiesAreFirst(row);
  }

  lemma IdentitiesAreFirst(row: RowNames)
    requires |row.values| == 4 && EqIgnoreCase(row.values[0], "field") && EqIgnoreCase(row.values[1], "operator")
    ensures IdentityNames(row) == Some(AggregateNames(row, row.values[0], row.values[1]))
  {
    hide SemanticNameKey, EqIgnoreCase;
    SameCaseSameKey(row.values[0], "field");
    SameCaseSameKey(row.values[1], "operator");
    ExpectedKeysDiffer();
    assert FindName(row.values, "field") == Some(row.values[0]);
    assert row.values[1..][0] == row.values[1];
    assert FindName(row.values, "operator") == FindName(row.values[1..], "operator") == Some(row.values[1]);
  }

  lemma ExpectedKeysDiffer()
    ensures SemanticNameKey("field") != SemanticNameKey("operator")
  {
    assert SemanticNameKey("field")[0] == 'f' && SemanticNameKey("operator")[0] == 'o';
  }
}
