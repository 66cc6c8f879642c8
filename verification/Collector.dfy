/** The collector of compact selection paths, with the checks it makes on the way. */
module Collector {
  import opened Common
  import opened Schema
  import opened Plans
  import opened Arguments
  import opened Compiler
  import opened CompactPlans
  import opened Heads
  import opened Pruning
  import opened Advertised

  // ---------------------------------------------------------------- what is checked

  function PageNames(types: Types, inputs: seq<SchemaInput>): seq<string> {
    var candidates := PageArguments(types, inputs);
    seq(|candidates|, i requires 0 <= i < |candidates| => candidates[i].name)
  }

  /** `validate_collection_sdl` and `validate_collection_limits`. */
  predicate CollectionOk(cap: Capability, inputs: seq<SchemaInput>, bound: Option<CollectionBound>) {
    match bound
    case None => PageNames(cap.types, inputs) == []
    case Some(Pageable(argumentName)) => PageNames(cap.types, inputs) == [argumentName]
    case Some(ServerFixed(n)) => PageNames(cap.types, inputs) == [] && WithinBounds(cap.limits, n)
  }

  predicate RelationshipChecks(cap: Capability, entityName: string, f: Field)
    requires f.relationship.Some?
  {
    var actual := ObjectField(cap.types, entityName, f.name);
    actual.Some? && CardinalityAgrees(f.relationship.value)
      && CollectionOk(cap, actual.value.arguments, f.relationship.value.bound)
  }

  predicate ScalarChecks(cap: Capability, entityName: string, fields: seq<Field>) {
    forall i :: 0 <= i < |fields| && SelectableScalar(fields[i]) ==>
      ObjectField(cap.types, entityName, fields[i].name).Some?
  }

  /** Everything the collector demands of an entity and of every relationship it follows from there. */
  ghost predicate Collectable(cap: Capability, entityName: string, depth: nat, ancestry: seq<string>)
    decreases cap.limits.maximumDepth - depth, 1
  {
    && entityName in cap.catalog
    && ScalarChecks(cap, entityName, cap.catalog[entityName].fields)
    && FieldsCollectable(cap, entityName, cap.catalog[entityName].fields, depth, ancestry)
  }

  ghost predicate FieldsCollectable(
    cap: Capability, entityName: string, fields: seq<Field>, depth: nat, ancestry: seq<string>)
    decreases cap.limits.maximumDepth - depth, 0
  {
    forall i :: 0 <= i < |fields| && Kept(cap.catalog, cap.limits.maximumDepth, fields[i], depth, ancestry) ==>
      var target := fields[i].relationship.value.target;
      RelationshipChecks(cap, entityName, fields[i]) && Collectable(cap, target, depth + 1, ancestry + [target])
  }

  /** On an advertised path, what is left of being callable: the route, the size field and the admitted values. */
  lemma CollectedHasOnePage(cap: Capability, entityName: string, f: Field)
    requires f.relationship.Some? && RelationshipChecks(cap, entityName, f)
    ensures CardinalityAgrees(f.relationship.value)
    ensures IsPageable(f.relationship.value) ==>
      exists i: nat :: OnlyPage(cap.types, ObjectField(cap.types, entityName, f.name).value.arguments, i)
  {
    var inputs := ObjectField(cap.types, entityName, f.name).value.arguments;
    if IsPageable(f.relationship.value) {
      assert |PageNames(cap.types, inputs)| == 1;
      var i := ListedIsOnlyPage(cap.types, inputs);
    }
  }

  // ---------------------------------------------------------------- the program

  /** Paths as the dotted strings that the schema lists. */
  function Dotted(prefix: string, paths: seq<Path>): (r: seq<string>)
    ensures |r| == |paths|
  {
    seq(|paths|, i requires 0 <= i < |paths| => JoinFrom(prefix, paths[i]))
  }

  lemma DottedSplit(prefix: string, a: seq<Path>, b: seq<Path>)
    ensures Dotted(prefix, a + b) == Dotted(prefix, a) + Dotted(prefix, b)
  {
  }

  lemma DottedUnder(prefix: string, name: string, paths: seq<Path>)
    ensures Dotted(prefix, Under(name, paths)) == Dotted(JoinPath(prefix, name), paths)
  {
    hide JoinPath;
    forall i | 0 <= i < |paths|
      ensures Dotted(prefix, Under(name, paths))[i] == Dotted(JoinPath(prefix, name), paths)[i] {
      assert ([name] + paths[i])[0] == name && ([name] + paths[i])[1..] == paths[i];
    }
  }

  lemma DottedLeaf(prefix: string, name: string)
    ensures Dotted(prefix, [[name]]) == [JoinPath(prefix, name)]
  {
    assert [name][1..] == [];
    assert JoinFrom(prefix, [name]) == JoinFrom(JoinPath(prefix, name), []);
  }

  /** The strings advertised below a prefix. */
  ghost function Advertises(
    cap: Capability, entityName: string, depth: nat, ancestry: seq<string>, prefix: string): seq<string>
  {
    if entityName in cap.catalog
      then Dotted(prefix, Paths(cap.catalog, cap.limits.maximumDepth, entityName, depth, ancestry)) else []
  }

  method CollectScalars(
    cap: Capability, entityName: string, fields: seq<Field>, prefix: string, selections: seq<string>)
    returns (r: Result<seq<string>, CompileError>)
    ensures r.Ok? <==> ScalarChecks(cap, entityName, fields)
    ensures r.Ok? ==> r.value == selections + Dotted(prefix, ScalarPaths(fields))
  {
    hide JoinPath, SelectableScalar;
    var collected := selections;
    assert fields[0..] == fields;
    for i := 0 to |fields|
      invariant forall j :: 0 <= j < i && SelectableScalar(fields[j]) ==>
                  ObjectField(cap.types, entityName, fields[j].name).Some?
      invariant collected + Dotted(prefix, ScalarPaths(fields[i..])) == selections + Dotted(prefix, ScalarPaths(fields))
    {
      assert fields[i..][1..] == fields[i + 1..];
      if SelectableScalar(fields[i]) {
        if ObjectField(cap.types, entityName, fields[i].name).None? {
          return Err(MissingSchemaField);
        }
        DottedSplit(prefix, [[fields[i].name]], ScalarPaths(fields[i + 1..]));
        DottedLeaf(prefix, fields[i].name);
        collected := collected + [JoinPath(prefix, fields[i].name)];
      } else {
        assert ScalarPaths(fields[i..]) == ScalarPaths(fields[i + 1..]);
      }
    }
    assert fields[|fields|..] == [] && Dotted(prefix, []) == [];
    r := Ok(collected);
  }

  method CollectRelationships(
    cap: Capability, entityName: string, depth: nat, ancestry: seq<string>, prefix: string, selections: seq<string>)
    returns (r: Result<seq<string>, CompileError>)
    requires depth + 1 < cap.limits.maximumDepth && entityName in cap.catalog
    ensures r.Ok? ==> FieldsCollectable(cap, entityName, cap.catalog[entityName].fields, depth, ancestry)
    ensures Closed(cap.catalog) ==>
      (FieldsCollectable(cap, entityName, cap.catalog[entityName].fields, depth, ancestry) ==> r.Ok?)
    ensures r.Ok? ==> r.value == selections + Dotted(
      prefix, RelationshipPaths(cap.catalog, cap.limits.maximumDepth, cap.catalog[entityName].fields, depth, ancestry))
    decreases cap.limits.maximumDepth - depth, 0
  {
    var fields := cap.catalog[entityName].fields;
    ghost var all := RelationshipPaths(cap.catalog, cap.limits.maximumDepth, fields, depth, ancestry);
    var collected := selections;
    assert fields[0..] == fields;
    for i := 0 to |fields|
      invariant FieldsCollectable(cap, entityName, fields[..i], depth, ancestry)
      invariant collected
        + Dotted(prefix, RelationshipPaths(cap.catalog, cap.limits.maximumDepth, fields[i..], depth, ancestry))
                == selections + Dotted(prefix, all)
    {
      hide CanSelect, Paths, Collectable, RelationshipChecks, JoinPath;
      var f := fields[i];
      assert fields[i..][1..] == fields[i + 1..] && fields[..i + 1] == fields[..i] + [f];
      if Traversable(f) && f.relationship.value.target !in ancestry {
        var target := f.relationship.value.target;
        assert f in fields && Edge(cap.catalog, entityName, target);
        var keep := EntityHasProviderSelections(cap.catalog, target, cap.limits.maximumDepth, depth + 1,
          AncestrySet(ancestry));
        if keep.Err? {
          return Err(keep.error);
        }
        if keep.value {
          assert Kept(cap.catalog, cap.limits.maximumDepth, f, depth, ancestry);
          if !RelationshipChecks(cap, entityName, f) {
            return Err(CollectionBoundInvalid);
          }
          var nested := CollectCompactSelectionPaths(cap, target, depth + 1, ancestry + [target],
            JoinPath(prefix, f.name), collected);
          if nested.Err? {
            return Err(nested.error);
          }
          ghost var paths := Paths(cap.catalog, cap.limits.maximumDepth, target, depth + 1, ancestry + [target]);
          DottedUnder(prefix, f.name, paths);
          DottedSplit(prefix, Under(f.name, paths),
                      RelationshipPaths(cap.catalog, cap.limits.maximumDepth, fields[i + 1..], depth, ancestry));
          collected := nested.value;
        }
      }
    }
    assert fields[..|fields|] == fields && fields[|fields|..] == [] && Dotted(prefix, []) == [];
    r := Ok(collected);
  }

  /**
   * `collect_compact_selection_paths`: it succeeds only when every check holds, with the dotted paths in order; only
   * a relationship that leads out of the catalogue can make it fail besides.
   */
  method CollectCompactSelectionPaths(
    cap: Capability, entityName: string, depth: nat, ancestry: seq<string>, prefix: string, selections: seq<string>)
    returns (r: Result<seq<string>, CompileError>)
    requires depth < cap.limits.maximumDepth
    ensures r.Ok? ==> Collectable(cap, entityName, depth, ancestry)
    ensures Closed(cap.catalog) && Collectable(cap, entityName, depth, ancestry) ==> r.Ok?
    ensures r.Ok? ==> r.value == selections + Advertises(cap, entityName, depth, ancestry, prefix)
    decreases cap.limits.maximumDepth - depth, 1
  {
    if entityName !in cap.catalog {
      return Err(MissingEntity);
    }
    var fields := cap.catalog[entityName].fields;
    var scalars := CollectScalars(cap, entityName, fields, prefix, selections);
    if scalars.Err? {
      return Err(scalars.error);
    }
    DottedSplit(prefix, ScalarPaths(fields),
      RelationshipPaths(cap.catalog, cap.limits.maximumDepth, fields, depth, ancestry));
    if depth + 1 >= cap.limits.maximumDepth {
      NothingKept(cap.catalog, cap.limits.maximumDepth, fields, depth, ancestry);
      return Ok(scalars.value);
    }
    r := CollectRelationships(cap, entityName, depth, ancestry, prefix, scalars.value);
  }

  lemma {:induction false} NothingKept(
    catalog: Catalog, maximumDepth: nat, fields: seq<Field>, depth: nat, ancestry: seq<string>)
    requires depth + 1 >= maximumDepth
    ensures RelationshipPaths(catalog, maximumDepth, fields, depth, ancestry) == []
  {
    if fields != [] {
      NothingKept(catalog, maximumDepth, fields[1..], depth, ancestry);
    }
  }
}
