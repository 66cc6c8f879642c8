/** The nested selection schema, and its agreement with the compact enumeration. */
module TreeSchema {
  import opened Common
  import opened Schema
  import opened Plans
  import opened Pruning
  import opened Advertised

  /** The selectable part of the nested plan schema. */
  datatype SelectionSchema = SelectionSchema(fields: set<string>, relationships: map<string, SelectionSchema>)

  datatype SchemaError = UnboundedCycle | EntityMissing | NoExportableSelections

  function ScalarNames(fields: seq<Field>): set<string> {
    set i | 0 <= i < |fields| && SelectableScalar(fields[i]) :: fields[i].name
  }

  /** `selection_schema`; `ancestry` does not yet hold the entity itself. */
  ghost function Build(catalog: Catalog, maximumDepth: nat, entityName: string, depth: nat, ancestry: seq<string>)
    : Result<SelectionSchema, SchemaError>
    decreases maximumDepth - depth, 1
  {
    if entityName in ancestry then Err(UnboundedCycle)
    else if entityName !in catalog then Err(EntityMissing)
    else
      var fields := catalog[entityName].fields;
      var relationships :- BuildRelationships(catalog, maximumDepth, fields, depth, ancestry + [entityName]);
      if ScalarNames(fields) == {} && relationships == map[] then Err(NoExportableSelections)
      else Ok(SelectionSchema(ScalarNames(fields), relationships))
  }

  ghost function BuildRelationships(
    catalog: Catalog, maximumDepth: nat, fields: seq<Field>, depth: nat, ancestry: seq<string>)
    : Result<map<string, SelectionSchema>, SchemaError>
    decreases maximumDepth - depth, 0, |fields|
  {
    if fields == [] then Ok(map[])
    else
      var f := fields[|fields| - 1];
      var before :- BuildRelationships(catalog, maximumDepth, fields[..|fields| - 1], depth, ancestry);
      if Kept(catalog, maximumDepth, f, depth, ancestry) then
        var nested :- Build(catalog, maximumDepth, f.relationship.value.target, depth + 1, ancestry);
        Ok(before[f.name := nested])
      else Ok(before)
  }

  /** A path that a nested plan may select under the schema. */
  predicate Offers(s: SelectionSchema, p: Path)
    decreases |p|
  {
    && p != []
    && if |p| == 1 then p[0] in s.fields else p[0] in s.relationships && Offers(s.relationships[p[0]], p[1..])
  }

  /** Every kept relationship has a nested schema that offers exactly the paths below it. */
  ghost predicate NestedAgree(
    catalog: Catalog, maximumDepth: nat, fields: seq<Field>, depth: nat, ancestry: seq<string>,
    m: map<string, SelectionSchema>)
  {
    && (forall k :: k in m ==>
          exists f :: f in fields && f.name == k && Kept(catalog, maximumDepth, f, depth, ancestry))
    && forall f :: f in fields && Kept(catalog, maximumDepth, f, depth, ancestry) ==>
         f.name in m && Agrees(catalog, maximumDepth, f.relationship.value.target, depth + 1, ancestry
           + [f.relationship.value.target], m[f.name])
  }

  ghost predicate Agrees(
    catalog: Catalog, maximumDepth: nat, entityName: string, depth: nat, ancestry: seq<string>, s: SelectionSchema)
  {
    forall p :: Offers(s, p) <==> PathOk(catalog, maximumDepth, entityName, p, depth, ancestry)
  }

  ghost predicate DistinctNames(fields: seq<Field>) {
    forall i, j :: 0 <= i < j < |fields| ==> fields[i].name != fields[j].name
  }

  lemma {:induction false} RelationshipsAgree(
    catalog: Catalog, maximumDepth: nat, fields: seq<Field>, depth: nat, ancestry: seq<string>)
    requires ValidCatalog(catalog) && DistinctNames(fields)
    ensures var r := BuildRelationships(catalog, maximumDepth, fields, depth, ancestry);
            r.Ok? && NestedAgree(catalog, maximumDepth, fields, depth, ancestry, r.value)
    decreases maximumDepth - depth, 0, |fields|
  {
    hide ValidCatalog, Agrees, Build, NestedAgree, DistinctNames;
    if fields != [] {
      var n := |fields| - 1;
      var f, before := fields[n], fields[..n];
      assert fields == before + [f];
      EarlierAreDistinct(fields);
      RelationshipsAgree(catalog, maximumDepth, before, depth, ancestry);
      var m := BuildRelationships(catalog, maximumDepth, before, depth, ancestry).value;
      if Kept(catalog, maximumDepth, f, depth, ancestry) {
        var target := f.relationship.value.target;
        KeptContributes(catalog, maximumDepth, f, depth, ancestry);
        TreeAndCompactAgree(catalog, maximumDepth, target, depth + 1, ancestry);
        var nested := Build(catalog, maximumDepth, target, depth + 1, ancestry).value;
        NestedAgreeWith(catalog, maximumDepth, before, f, depth, ancestry, m, nested);
      } else {
        NestedAgreeWithout(catalog, maximumDepth, before, f, depth, ancestry, m);
      }
    } else {
      NestedAgreeNone(catalog, maximumDepth, depth, ancestry);
    }
  }

  lemma EarlierAreDistinct(fields: seq<Field>)
    requires fields != [] && DistinctNames(fields)
    ensures var n := |fields| - 1;
      DistinctNames(fields[..n]) && forall g :: g in fields[..n] ==> g.name != fields[n].name
  {
  }

  lemma NestedAgreeNone(catalog: Catalog, maximumDepth: nat, depth: nat, ancestry: seq<string>)
    ensures NestedAgree(catalog, maximumDepth, [], depth, ancestry, map[])
  {
  }

  lemma NestedAgreeWithout(
    catalog: Catalog, maximumDepth: nat, before: seq<Field>, f: Field, depth: nat, ancestry: seq<string>,
    m: map<string, SelectionSchema>)
    requires NestedAgree(catalog, maximumDepth, before, depth, ancestry, m)
      && !Kept(catalog, maximumDepth, f, depth, ancestry)
    ensures NestedAgree(catalog, maximumDepth, before + [f], depth, ancestry, m)
  {
    hide Agrees, CanSelect;
    assert forall g :: g in before ==> g in before + [f];
  }

  lemma NestedAgreeWith(
    catalog: Catalog, maximumDepth: nat, before: seq<Field>, f: Field, depth: nat, ancestry: seq<string>,
    m: map<string, SelectionSchema>, nested: SelectionSchema)
    requires NestedAgree(catalog, maximumDepth, before, depth, ancestry, m)
      && Kept(catalog, maximumDepth, f, depth, ancestry)
    requires forall g :: g in before ==> g.name != f.name
    requires Agrees(catalog, maximumDepth, f.relationship.value.target, depth + 1, ancestry
      + [f.relationship.value.target], nested)
    ensures NestedAgree(catalog, maximumDepth, before + [f], depth, ancestry, m[f.name := nested])
  {
    hide Agrees, CanSelect;
    var all, more := before + [f], m[f.name := nested];
    assert f in all && forall g :: g in before ==> g in all;
    forall k | k in more
      ensures exists g :: g in all && g.name == k && Kept(catalog, maximumDepth, g, depth, ancestry) {
      if k != f.name {
        var g :| g in before && g.name == k && Kept(catalog, maximumDepth, g, depth, ancestry);
        assert g in all;
      }
    }
  }

  /**
   * Both front ends offer the same selections: the nested schema exists exactly when the compact enumeration is
   * not empty, and then offers exactly the enumerated paths. Below a kept relationship it always exists.
   */
  lemma {:induction false} TreeAndCompactAgree(
    catalog: Catalog, maximumDepth: nat, entityName: string, depth: nat, ancestry: seq<string>)
    requires ValidCatalog(catalog) && entityName in catalog && entityName !in ancestry
    ensures var r := Build(catalog, maximumDepth, entityName, depth, ancestry);
            var paths := Paths(catalog, maximumDepth, entityName, depth, ancestry + [entityName]);
            && (r.Ok? <==> paths != [])
            && (r.Ok? ==> Agrees(catalog, maximumDepth, entityName, depth, ancestry + [entityName], r.value))
            && (r.Ok? ==> forall p :: Offers(r.value, p) <==> p in paths)
    decreases maximumDepth - depth, 1
  {
    var longer := ancestry + [entityName];
    var fields := catalog[entityName].fields;
    assert ValidEntity(catalog[entityName]);
    RelationshipsAgree(catalog, maximumDepth, fields, depth, longer);
    var m := BuildRelationships(catalog, maximumDepth, fields, depth, longer).value;
    var s := SelectionSchema(ScalarNames(fields), m);
    forall p ensures Offers(s, p) <==> PathOk(catalog, maximumDepth, entityName, p, depth, longer) {
      SchemaOffersPath(catalog, maximumDepth, entityName, depth, longer, m, p);
    }
    forall p ensures PathOk(catalog, maximumDepth, entityName, p, depth, longer) <==>
      p in Paths(catalog, maximumDepth, entityName, depth, longer) {
      PathsAreExact(catalog, maximumDepth, entityName, depth, longer, p);
    }
    NonEmptySchemaOffers(catalog, maximumDepth, entityName, depth, longer, m);
  }

  lemma SchemaOffersPath(catalog: Catalog, maximumDepth: nat, entityName: string, depth: nat, ancestry: seq<string>,
                         m: map<string, SelectionSchema>, p: Path)
    requires entityName in catalog && NestedAgree(catalog, maximumDepth, catalog[entityName].fields, depth, ancestry, m)
    ensures Offers(SelectionSchema(ScalarNames(catalog[entityName].fields), m), p) <==>
            PathOk(catalog, maximumDepth, entityName, p, depth, ancestry)
  {
    hide Kept;
    var fields := catalog[entityName].fields;
    if |p| == 1 {
      assert p[0] in ScalarNames(fields) <==> exists f :: f in fields && f.name == p[0] && SelectableScalar(f);
    } else if |p| > 1 {
      if PathOk(catalog, maximumDepth, entityName, p, depth, ancestry) {
        var f :| f in fields && f.name == p[0] && StepOk(catalog, maximumDepth, f, p[1..], depth, ancestry);
        KeptIffOnPath(catalog, maximumDepth, f, depth, ancestry, p);
      }
      if p[0] in m && Offers(m[p[0]], p[1..]) {
        var f :| f in fields && f.name == p[0] && Kept(catalog, maximumDepth, f, depth, ancestry);
        KeptIffOnPath(catalog, maximumDepth, f, depth, ancestry, p);
        KeptIsStep(catalog, maximumDepth, f, p[1..], depth, ancestry);
      }
    }
  }

  lemma KeptIsStep(catalog: Catalog, maximumDepth: nat, f: Field, rest: Path, depth: nat, ancestry: seq<string>)
    requires Kept(catalog, maximumDepth, f, depth, ancestry)
    requires PathOk(catalog, maximumDepth, f.relationship.value.target, rest, depth + 1, ancestry
      + [f.relationship.value.target])
    ensures StepOk(catalog, maximumDepth, f, rest, depth, ancestry) && depth + 1 < maximumDepth
  {
  }

  lemma NonEmptySchemaOffers(
    catalog: Catalog, maximumDepth: nat, entityName: string, depth: nat, ancestry: seq<string>,
    m: map<string, SelectionSchema>)
    requires entityName in catalog && NestedAgree(catalog, maximumDepth, catalog[entityName].fields, depth, ancestry, m)
    ensures ScalarNames(catalog[entityName].fields) != {} || m != map[] <==>
            Paths(catalog, maximumDepth, entityName, depth, ancestry) != []
  {
    var fields := catalog[entityName].fields;
    var s := SelectionSchema(ScalarNames(fields), m);
    var paths := Paths(catalog, maximumDepth, entityName, depth, ancestry);
    if k :| k in s.fields {
      SchemaOffersPath(catalog, maximumDepth, entityName, depth, ancestry, m, [k]);
      PathsAreExact(catalog, maximumDepth, entityName, depth, ancestry, [k]);
    } else if k :| k in m {
      var f :| f in fields && f.name == k && Kept(catalog, maximumDepth, f, depth, ancestry);
      KeptContributes(catalog, maximumDepth, f, depth, ancestry);
      var target := f.relationship.value.target;
      var below := Paths(catalog, maximumDepth, target, depth + 1, ancestry + [target])[0];
      PathsAreExact(catalog, maximumDepth, target, depth + 1, ancestry + [target], below);
      KeptIffOnPath(catalog, maximumDepth, f, depth, ancestry, [k]);
      var p := [k] + below;
      assert p[1..] == below;
      assert StepOk(catalog, maximumDepth, f, below, depth, ancestry);
      PathsAreExact(catalog, maximumDepth, entityName, depth, ancestry, p);
    } else if paths != [] {
      PathsAreExact(catalog, maximumDepth, entityName, depth, ancestry, paths[0]);
      SchemaOffersPath(catalog, maximumDepth, entityName, depth, ancestry, m, paths[0]);
      assert false;
    }
  }

  // ---------------------------------------------------------------- the program

  lemma {:induction false} PrefixFails(
    catalog: Catalog, maximumDepth: nat, fields: seq<Field>, depth: nat, ancestry: seq<string>, i: nat)
    requires i <= |fields| && BuildRelationships(catalog, maximumDepth, fields[..i], depth, ancestry).Err?
    ensures BuildRelationships(catalog, maximumDepth, fields, depth, ancestry)
            == BuildRelationships(catalog, maximumDepth, fields[..i], depth, ancestry)
    decreases |fields|
  {
    hide Build, Kept;
    if i < |fields| {
      var n := |fields| - 1;
      assert fields[..n][..i] == fields[..i];
      PrefixFails(catalog, maximumDepth, fields[..n], depth, ancestry, i);
    } else {
      assert fields[..i] == fields;
    }
  }

  /** `selection_schema`, as far as selections go; a target outside the catalogue may end it early. */
  method SelectionSchemaOf(catalog: Catalog, maximumDepth: nat, entityName: string, depth: nat, ancestry: seq<string>)
    returns (r: Result<SelectionSchema, SchemaError>)
    ensures r == Build(catalog, maximumDepth, entityName, depth, ancestry)
      || (!Closed(catalog) && r == Err(EntityMissing))
    decreases maximumDepth - depth
  {
    hide Kept, CanSelect, SelectableScalar;
    if entityName in ancestry {
      return Err(UnboundedCycle);
    }
    if entityName !in catalog {
      return Err(EntityMissing);
    }
    var fields, longer := catalog[entityName].fields, ancestry + [entityName];
    var relationships: map<string, SelectionSchema> := map[];
    assert fields[..0] == [];
    for i := 0 to |fields|
      invariant BuildRelationships(catalog, maximumDepth, fields[..i], depth, longer) == Ok(relationships)
    {
      var f := fields[i];
      assert fields[..i + 1][..i] == fields[..i] && f in fields;
      KeptIff(catalog, maximumDepth, f, depth, longer);
      if depth + 1 < maximumDepth && Traversable(f) && f.relationship.value.target !in longer {
        var target := f.relationship.value.target;
        assert Edge(catalog, entityName, target);
        var keep := EntityHasProviderSelections(catalog, target, maximumDepth, depth + 1, AncestrySet(longer));
        if keep.Err? {
          return Err(EntityMissing);
        }
        if keep.value {
          var nested := SelectionSchemaOf(catalog, maximumDepth, target, depth + 1, longer);
          if nested.Err? {
            if nested == Build(catalog, maximumDepth, target, depth + 1, longer) {
              PrefixFails(catalog, maximumDepth, fields, depth, longer, i + 1);
            }
            return Err(nested.error);
          }
          relationships := relationships[f.name := nested.value];
        }
      }
    }
    assert fields[..|fields|] == fields;
    if ScalarNames(fields) == {} && relationships == map[] {
      return Err(NoExportableSelections);
    }
    r := Ok(SelectionSchema(ScalarNames(fields), relationships));
  }

  lemma KeptIff(catalog: Catalog, maximumDepth: nat, f: Field, depth: nat, ancestry: seq<string>)
    ensures Kept(catalog, maximumDepth, f, depth, ancestry) <==>
      && depth + 1 < maximumDepth && Traversable(f) && f.relationship.value.target !in ancestry
      && CanSelect(catalog, maximumDepth, f.relationship.value.target, depth + 1, AncestrySet(ancestry))
  {
  }
}
