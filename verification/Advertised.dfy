/** The selection paths a capability advertises. */
module Advertised {
  import opened Common
  import opened TypeText
  import opened Schema
  import opened Plans
  import opened Pruning

  function AncestrySet(ancestry: seq<string>): set<string> {
    set i | 0 <= i < |ancestry| :: ancestry[i]
  }

  lemma AncestrySnoc(ancestry: seq<string>, name: string)
    ensures AncestrySet(ancestry + [name]) == AncestrySet(ancestry) + {name}
  {
    var longer := ancestry + [name];
    assert longer[|ancestry|] == name;
    assert forall i :: 0 <= i < |ancestry| ==> longer[i] == ancestry[i];
  }

  // ---------------------------------------------------------------- enumeration

  function ScalarPaths(fields: seq<Field>): seq<Path> {
    if fields == [] then []
    else (if SelectableScalar(fields[0]) then [[fields[0].name]] else []) + ScalarPaths(fields[1..])
  }

  function Under(name: string, paths: seq<Path>): seq<Path> {
    seq(|paths|, i requires 0 <= i < |paths| => [name] + paths[i])
  }

  /** A relationship that the enumeration follows. */
  ghost predicate Kept(catalog: Catalog, maximumDepth: nat, f: Field, depth: nat, ancestry: seq<string>) {
    && depth + 1 < maximumDepth && Traversable(f) && f.relationship.value.target !in ancestry
    && CanSelect(catalog, maximumDepth, f.relationship.value.target, depth + 1, AncestrySet(ancestry))
  }

  /** `collect_compact_selection_paths`: scalars first, then every relationship that the pruning search keeps. */
  ghost function Paths(
    catalog: Catalog, maximumDepth: nat, entityName: string, depth: nat, ancestry: seq<string>): seq<Path>
    requires entityName in catalog
    decreases maximumDepth - depth, 1
  {
    ScalarPaths(catalog[entityName].fields)
    + RelationshipPaths(catalog, maximumDepth, catalog[entityName].fields, depth, ancestry)
  }

  ghost function RelationshipPaths(
    catalog: Catalog, maximumDepth: nat, fields: seq<Field>, depth: nat, ancestry: seq<string>): seq<Path>
    decreases maximumDepth - depth, 0, |fields|
  {
    if fields == [] then []
    else
      var rest := RelationshipPaths(catalog, maximumDepth, fields[1..], depth, ancestry);
      if Kept(catalog, maximumDepth, fields[0], depth, ancestry) then
        var target := fields[0].relationship.value.target;
        Under(fields[0].name, Paths(catalog, maximumDepth, target, depth + 1, ancestry + [target])) + rest
      else rest
  }

  // ---------------------------------------------------------------- what a path is

  /** A simple path of traversable relationships through open entities, ending in a selectable scalar. */
  ghost predicate PathOk(
    catalog: Catalog, maximumDepth: nat, entityName: string, p: Path, depth: nat, ancestry: seq<string>)
    decreases |p|, 0
  {
    && p != [] && entityName in catalog
    && if |p| == 1 then exists f :: f in catalog[entityName].fields && f.name == p[0] && SelectableScalar(f)
       else depth + 1 < maximumDepth && exists f :: f in catalog[entityName].fields && f.name == p[0]
                                                    && StepOk(catalog, maximumDepth, f, p[1..], depth, ancestry)
  }

  ghost predicate StepOk(catalog: Catalog, maximumDepth: nat, f: Field, rest: Path, depth: nat, ancestry: seq<string>)
    decreases |rest|, 1
  {
    && Traversable(f) && f.relationship.value.target !in ancestry && Open(catalog, f.relationship.value.target)
    && PathOk(catalog, maximumDepth, f.relationship.value.target, rest, depth + 1, ancestry
      + [f.relationship.value.target])
  }

  lemma {:induction false} PathOkCanSelect(
    catalog: Catalog, maximumDepth: nat, entityName: string, p: Path, depth: nat, ancestry: seq<string>)
    returns (path: seq<string>)
    requires PathOk(catalog, maximumDepth, entityName, p, depth, ancestry) && Open(catalog, entityName)
    requires ancestry != [] && ancestry[|ancestry| - 1] == entityName && entityName !in ancestry[..|ancestry| - 1]
    ensures path != [] && path[0] == entityName
    ensures SelectablePath(catalog, maximumDepth, path, depth, AncestrySet(ancestry[..|ancestry| - 1]))
    decreases |p|
  {
    var before := ancestry[..|ancestry| - 1];
    if |p| == 1 {
      path := [entityName];
    } else {
      var f :| f in catalog[entityName].fields && f.name == p[0]
        && StepOk(catalog, maximumDepth, f, p[1..], depth, ancestry);
      var target := f.relationship.value.target;
      var longer := ancestry + [target];
      assert longer[..|longer| - 1] == ancestry;
      var rest := PathOkCanSelect(catalog, maximumDepth, target, p[1..], depth + 1, longer);
      AncestrySnoc(before, entityName);
      assert ancestry == before + [entityName];
      path := [entityName] + rest;
      assert path[1..] == rest;
      assert Edge(catalog, entityName, target);
    }
  }

  lemma {:induction false} CanSelectPathOk(
    catalog: Catalog, maximumDepth: nat, path: seq<string>, depth: nat, before: seq<string>)
    returns (p: Path)
    requires SelectablePath(catalog, maximumDepth, path, depth, AncestrySet(before))
    ensures PathOk(catalog, maximumDepth, path[0], p, depth, before + [path[0]])
    decreases |path|
  {
    var name := path[0];
    if |path| == 1 {
      var i :| 0 <= i < |catalog[name].fields| && SelectableScalar(catalog[name].fields[i]);
      p := [catalog[name].fields[i].name];
      assert catalog[name].fields[i] in catalog[name].fields;
    } else {
      var longer := before + [name];
      AncestrySnoc(before, name);
      var f :| f in catalog[name].fields && Traversable(f) && f.relationship.value.target == path[1];
      var rest := CanSelectPathOk(catalog, maximumDepth, path[1..], depth + 1, longer);
      assert path[1] !in longer by { assert path[1..][0] !in AncestrySet(longer); }
      p := [f.name] + rest;
      assert p[1..] == rest;
      assert StepOk(catalog, maximumDepth, f, rest, depth, longer);
    }
  }

  lemma {:induction false} ScalarPathMembers(fields: seq<Field>, p: Path)
    ensures p in ScalarPaths(fields) <==> |p| == 1 && exists f :: f in fields && f.name == p[0] && SelectableScalar(f)
  {
    if fields != [] {
      ScalarPathMembers(fields[1..], p);
      assert fields == [fields[0]] + fields[1..];
      assert p == [fields[0].name] <==> |p| == 1 && p[0] == fields[0].name;
    }
  }

  lemma UnderMembers(name: string, paths: seq<Path>, p: Path)
    ensures p in Under(name, paths) <==> p != [] && p[0] == name && p[1..] in paths
  {
    if p != [] && p[0] == name && p[1..] in paths {
      var i :| 0 <= i < |paths| && paths[i] == p[1..];
      assert Under(name, paths)[i] == p;
    }
    if p in Under(name, paths) {
      var i :| 0 <= i < |paths| && p == [name] + paths[i];
      assert p[1..] == paths[i];
    }
  }

  /** The enumeration lists exactly the admissible paths. */
  lemma {:induction false} PathsAreExact(
    catalog: Catalog, maximumDepth: nat, entityName: string, depth: nat, ancestry: seq<string>, p: Path)
    requires entityName in catalog
    ensures p in Paths(catalog, maximumDepth, entityName, depth, ancestry) <==>
            PathOk(catalog, maximumDepth, entityName, p, depth, ancestry)
    decreases maximumDepth - depth, 1
  {
    var fields := catalog[entityName].fields;
    ScalarPathMembers(fields, p);
    RelationshipPathsAreExact(catalog, maximumDepth, fields, depth, ancestry, p);
  }

  lemma {:induction false} RelationshipPathsAreExact(
    catalog: Catalog, maximumDepth: nat, fields: seq<Field>, depth: nat, ancestry: seq<string>, p: Path)
    ensures p in RelationshipPaths(catalog, maximumDepth, fields, depth, ancestry) <==>
            |p| > 1 && depth + 1 < maximumDepth
            && exists f :: f in fields && f.name == p[0] && StepOk(catalog, maximumDepth, f, p[1..], depth, ancestry)
    decreases maximumDepth - depth, 0, |fields|
  {
    if fields != [] {
      var f := fields[0];
      assert fields == [f] + fields[1..];
      RelationshipPathsAreExact(catalog, maximumDepth, fields[1..], depth, ancestry, p);
      KeptIffOnPath(catalog, maximumDepth, f, depth, ancestry, p);
      if Kept(catalog, maximumDepth, f, depth, ancestry) {
        var target := f.relationship.value.target;
        var paths := Paths(catalog, maximumDepth, target, depth + 1, ancestry + [target]);
        UnderMembers(f.name, paths, p);
        if p != [] {
          PathsAreExact(catalog, maximumDepth, target, depth + 1, ancestry + [target], p[1..]);
        }
      }
    }
  }

  /** The pruning search drops a relationship only if no path goes through it. */
  lemma KeptIffOnPath(catalog: Catalog, maximumDepth: nat, f: Field, depth: nat, ancestry: seq<string>, p: Path)
    ensures |p| > 1 && depth + 1 < maximumDepth && StepOk(catalog, maximumDepth, f, p[1..], depth, ancestry) ==>
              Kept(catalog, maximumDepth, f, depth, ancestry)
    ensures Kept(catalog, maximumDepth, f, depth, ancestry) ==> Open(catalog, f.relationship.value.target)
  {
    if |p| > 1 && depth + 1 < maximumDepth && StepOk(catalog, maximumDepth, f, p[1..], depth, ancestry) {
      var target := f.relationship.value.target;
      var longer := ancestry + [target];
      assert longer[..|longer| - 1] == ancestry;
      var path := PathOkCanSelect(catalog, maximumDepth, target, p[1..], depth + 1, longer);
    }
  }

  /** A kept relationship always contributes a path, so its nested selection is never empty. */
  lemma KeptContributes(catalog: Catalog, maximumDepth: nat, f: Field, depth: nat, ancestry: seq<string>)
    requires Kept(catalog, maximumDepth, f, depth, ancestry)
    ensures var target := f.relationship.value.target;
            target in catalog && Paths(catalog, maximumDepth, target, depth + 1, ancestry + [target]) != []
  {
    var target := f.relationship.value.target;
    var path: seq<string> :| path != [] && path[0] == target
                             && SelectablePath(catalog, maximumDepth, path, depth + 1, AncestrySet(ancestry));
    var p := CanSelectPathOk(catalog, maximumDepth, path, depth + 1, ancestry);
    PathsAreExact(catalog, maximumDepth, target, depth + 1, ancestry + [target], p);
  }

  /** Advertised paths are no longer than the depth limit allows. */
  lemma {:induction false} PathsAreShort(
    catalog: Catalog, maximumDepth: nat, entityName: string, p: Path, depth: nat, ancestry: seq<string>)
    requires PathOk(catalog, maximumDepth, entityName, p, depth, ancestry) && depth < maximumDepth
    ensures depth + |p| <= maximumDepth
    decreases |p|
  {
    if |p| > 1 {
      var f :| f in catalog[entityName].fields && f.name == p[0]
        && StepOk(catalog, maximumDepth, f, p[1..], depth, ancestry);
      PathsAreShort(catalog, maximumDepth, f.relationship.value.target, p[1..], depth + 1, ancestry
        + [f.relationship.value.target]);
    }
  }

  // ---------------------------------------------------------------- no path twice

  lemma {:induction false} ScalarPathsAreDistinct(fields: seq<Field>)
    requires forall i, j :: 0 <= i < j < |fields| ==> fields[i].name != fields[j].name
    ensures Distinct(ScalarPaths(fields))
    ensures forall p :: p in ScalarPaths(fields) ==> |p| == 1
    decreases |fields|
  {
    if fields != [] {
      var rest := fields[1..];
      assert forall i :: 0 <= i < |rest| ==> rest[i] == fields[i + 1];
      ScalarPathsAreDistinct(rest);
      ScalarPathMembers(rest, [fields[0].name]);
    }
  }

  lemma DistinctConcat(a: seq<Path>, b: seq<Path>)
    requires Distinct(a) && Distinct(b) && forall p :: p in a ==> p !in b
    ensures Distinct(a + b)
  {
    var c := a + b;
    forall i, j | 0 <= i < j < |c| ensures c[i] != c[j] {
      if i < |a| <= j {
        assert c[i] in a && c[j] == b[j - |a|] && c[j] in b;
      }
    }
  }

  lemma {:induction false} RelationshipPathsAreDistinct(
    catalog: Catalog, maximumDepth: nat, fields: seq<Field>, depth: nat, ancestry: seq<string>)
    requires ValidCatalog(catalog) && forall i, j :: 0 <= i < j < |fields| ==> fields[i].name != fields[j].name
    ensures Distinct(RelationshipPaths(catalog, maximumDepth, fields, depth, ancestry))
    ensures forall p :: p in RelationshipPaths(catalog, maximumDepth, fields, depth, ancestry) ==>
              |p| > 1 && exists f :: f in fields && f.name == p[0]
    decreases maximumDepth - depth, 0, |fields|
  {
    forall p | p in RelationshipPaths(catalog, maximumDepth, fields, depth, ancestry)
      ensures |p| > 1 && exists f :: f in fields && f.name == p[0]
    {
      RelationshipPathsAreExact(catalog, maximumDepth, fields, depth, ancestry, p);
    }
    if fields != [] {
      var f, rest := fields[0], fields[1..];
      assert forall i :: 0 <= i < |rest| ==> rest[i] == fields[i + 1];
      RelationshipPathsAreDistinct(catalog, maximumDepth, rest, depth, ancestry);
      if Kept(catalog, maximumDepth, f, depth, ancestry) {
        var target := f.relationship.value.target;
        KeptContributes(catalog, maximumDepth, f, depth, ancestry);
        PathsAreDistinct(catalog, maximumDepth, target, depth + 1, ancestry + [target]);
        var under := Under(f.name, Paths(catalog, maximumDepth, target, depth + 1, ancestry + [target]));
        UnderIsDistinct(f.name, Paths(catalog, maximumDepth, target, depth + 1, ancestry + [target]));
        forall p | p in under ensures p !in RelationshipPaths(catalog, maximumDepth, rest, depth, ancestry) {
          assert p[0] == f.name;
        }
        DistinctConcat(under, RelationshipPaths(catalog, maximumDepth, rest, depth, ancestry));
      }
    }
  }

  lemma UnderIsDistinct(name: string, paths: seq<Path>)
    requires Distinct(paths)
    ensures Distinct(Under(name, paths)) && forall p :: p in Under(name, paths) ==> p != [] && p[0] == name
  {
    var under := Under(name, paths);
    forall i, j | 0 <= i < j < |under| ensures under[i] != under[j] {
      assert under[i][1..] == paths[i] && under[j][1..] == paths[j];
    }
  }

  /** No path is advertised twice. */
  lemma {:induction false} PathsAreDistinct(
    catalog: Catalog, maximumDepth: nat, entityName: string, depth: nat, ancestry: seq<string>)
    requires ValidCatalog(catalog) && entityName in catalog
    ensures Distinct(Paths(catalog, maximumDepth, entityName, depth, ancestry))
    decreases maximumDepth - depth, 1
  {
    var fields := catalog[entityName].fields;
    assert ValidEntity(catalog[entityName]);
    ScalarPathsAreDistinct(fields);
    RelationshipPathsAreDistinct(catalog, maximumDepth, fields, depth, ancestry);
    DistinctConcat(ScalarPaths(fields), RelationshipPaths(catalog, maximumDepth, fields, depth, ancestry));
  }

  /** Every segment of an advertised path is a name. */
  lemma {:induction false} PathNamesAreValid(
    catalog: Catalog, maximumDepth: nat, entityName: string, p: Path, depth: nat, ancestry: seq<string>)
    requires ValidCatalog(catalog) && PathOk(catalog, maximumDepth, entityName, p, depth, ancestry)
    ensures forall i :: 0 <= i < |p| ==> ValidName(p[i])
    decreases |p|
  {
    assert ValidEntity(catalog[entityName]);
    if |p| > 1 {
      var f :| f in catalog[entityName].fields && f.name == p[0]
        && StepOk(catalog, maximumDepth, f, p[1..], depth, ancestry);
      var target := f.relationship.value.target;
      PathNamesAreValid(catalog, maximumDepth, target, p[1..], depth + 1, ancestry + [target]);
      assert forall i :: 1 <= i < |p| ==> p[i] == p[1..][i - 1];
    }
  }
}
