/** Compact plans and plan trees undo each other. */
module Flattening {
  import opened Common
  import opened JsonModel
  import opened Plans
  import opened CompactPlans

  /** The node at the end of a relationship path. */
  ghost predicate HasNode(plan: Plan, rels: Path)
    decreases |rels|
  {
    rels == [] || (rels[0] in plan.relationships && HasNode(plan.relationships[rels[0]], rels[1..]))
  }

  ghost function NodeAt(plan: Plan, rels: Path): Plan
    requires HasNode(plan, rels)
    decreases |rels|
  {
    if rels == [] then plan else NodeAt(plan.relationships[rels[0]], rels[1..])
  }

  ghost predicate NamesPlain(plan: Plan) {
    && (forall k :: k in plan.fields ==> PlainSegment(k))
    && forall k :: k in plan.relationships ==> PlainSegment(k) && NamesPlain(plan.relationships[k])
  }

  /** A compact plan that lists the paths of a tree and records the options of each of its relationships. */
  ghost predicate Flattens(plan: Plan, c: Compact) {
    && c.arguments == plan.arguments && c.maximumItems == plan.maximumItems
    && (forall s :: s in c.selections <==> exists p :: Selects(plan, p) && s == Join(p))
    && (forall key :: key in c.relationshipArguments <==> IsRelationshipKey(plan, key))
    && (forall rels :: rels != [] && HasNode(plan, rels) ==>
          && Join(rels) in c.relationshipArguments
          && c.relationshipArguments[Join(rels)] == NodeAt(plan, rels).arguments
          && MaximumAt(c, Join(rels)) == NodeAt(plan, rels).maximumItems)
    && (forall key :: key in c.relationshipMaximumItems ==> IsRelationshipKey(plan, key))
  }

  ghost predicate IsRelationshipKey(plan: Plan, key: string) {
    exists rels :: rels != [] && HasNode(plan, rels) && key == Join(rels)
  }

  lemma {:induction false} SelectedNamesArePlain(plan: Plan, p: Path)
    requires NamesPlain(plan) && Selects(plan, p)
    ensures forall i :: 0 <= i < |p| ==> PlainSegment(p[i])
    decreases |p|
  {
    if |p| > 1 {
      SelectedNamesArePlain(plan.relationships[p[0]], p[1..]);
      assert forall i :: 1 <= i < |p| ==> p[i] == p[1..][i - 1];
    }
  }

  lemma {:induction false} NodeNamesArePlain(plan: Plan, rels: Path)
    requires NamesPlain(plan) && HasNode(plan, rels)
    ensures forall i :: 0 <= i < |rels| ==> PlainSegment(rels[i])
    decreases |rels|
  {
    if rels != [] {
      NodeNamesArePlain(plan.relationships[rels[0]], rels[1..]);
      assert forall i :: 1 <= i < |rels| ==> rels[i] == rels[1..][i - 1];
    }
  }

  lemma {:induction false} NodeSnoc(plan: Plan, rels: Path, k: string)
    requires HasNode(plan, rels) && k in NodeAt(plan, rels).relationships
    ensures HasNode(plan, rels + [k]) && NodeAt(plan, rels + [k]) == NodeAt(plan, rels).relationships[k]
    decreases |rels|
  {
    if rels == [] {
      assert (rels + [k])[1..] == [];
    } else {
      NodeSnoc(plan.relationships[rels[0]], rels[1..], k);
      assert (rels + [k])[1..] == rels[1..] + [k];
    }
  }

  /** The recorded options are those of the tree, at every node. */
  lemma {:induction false} FlattenedOptionsMatch(plan: Plan, c: Compact, rels: Path, node: Plan)
    requires Flattens(plan, c) && HasNode(plan, rels) && node == NodeAt(plan, rels)
    ensures OptionsMatch(c, node, Join(rels))
    decreases node
  {
    forall k | k in node.relationships
      ensures && node.relationships[k].arguments == ArgumentsAt(c, JoinPath(Join(rels), k))
              && node.relationships[k].maximumItems == MaximumAt(c, JoinPath(Join(rels), k))
              && OptionsMatch(c, node.relationships[k], JoinPath(Join(rels), k))
    {
      NodeSnoc(plan, rels, k);
      JoinSnoc("", rels, k);
      FlattenedOptionsMatch(plan, c, rels + [k], node.relationships[k]);
    }
  }

  /** A flattened tree describes itself: expansion gives back exactly the tree. */
  lemma ExpandingUndoesFlattening(plan: Plan, c: Compact, expanded: Plan)
    requires Regular(plan) && NamesPlain(plan) && Flattens(plan, c)
    ensures Describes(c, plan)
    ensures Describes(c, expanded) && Regular(expanded) ==> expanded == plan
  {
    FlattenedOptionsMatch(plan, c, [], plan);
    forall p ensures Selects(plan, p) <==> exists s :: s in c.selections && Split(s) == p {
      if Selects(plan, p) {
        SelectedNamesArePlain(plan, p);
        SplitJoin(p);
        assert Join(p) in c.selections;
      }
      forall s | s in c.selections && Split(s) == p ensures Selects(plan, p) {
        var q :| Selects(plan, q) && s == Join(q);
        SelectedNamesArePlain(plan, q);
        SplitJoin(q);
      }
    }
    if Describes(c, expanded) && Regular(expanded) {
      ExpansionIsCanonical(c, c, plan, expanded);
    }
  }

  /** The option keys of a flattened tree all lie on selected paths. */
  lemma FlattenedOptionsAreSelected(plan: Plan, c: Compact)
    requires Regular(plan) && NamesPlain(plan) && Flattens(plan, c)
    ensures OptionsSelected(c)
  {
    forall key | key in c.relationshipArguments || key in c.relationshipMaximumItems
      ensures key in SelectedKeys(c.selections) {
      var rels :| rels != [] && HasNode(plan, rels) && key == Join(rels);
      var p := PathThrough(plan, rels);
      SelectedNamesArePlain(plan, p);
      SplitJoin(p);
      assert Join(p) in c.selections;
      assert p[..|rels|] == rels;
      assert key in RelationshipKeys(Join(p));
      var i :| 0 <= i < |c.selections| && c.selections[i] == Join(p);
      SelectedKeysInclude(c.selections, i);
    }
  }

  /** Below every relationship of a regular tree lies a selected leaf. */
  lemma {:induction false} PathThrough(plan: Plan, rels: Path) returns (p: Path)
    requires Regular(plan) && rels != [] && HasNode(plan, rels)
    ensures Selects(plan, p) && |rels| < |p| && p[..|rels|] == rels
    decreases |rels|
  {
    var child := plan.relationships[rels[0]];
    var rest: Path;
    if |rels| == 1 {
      rest := ShapedSelects(child);
    } else {
      ShapedIsRegular(child);
      rest := PathThrough(child, rels[1..]);
    }
    p := [rels[0]] + rest;
    assert p[1..] == rest;
    assert rels == [rels[0]] + rels[1..];
  }

  // ---------------------------------------------------------------- every tree has a compact form

  ghost function Under(name: string, paths: set<Path>): set<Path> {
    set p | p in paths :: [name] + p
  }

  lemma UnderMembers(name: string, paths: set<Path>, p: Path)
    ensures p in Under(name, paths) <==> p != [] && p[0] == name && p[1..] in paths
  {
    if p != [] && p[0] == name && p[1..] in paths {
      assert p == [name] + p[1..];
    }
    if p in Under(name, paths) {
      var q :| q in paths && p == [name] + q;
      assert p[1..] == q;
    }
  }

  /** The leaf paths of a tree. */
  ghost function PathSet(plan: Plan): set<Path>
    decreases plan, 1
  {
    (set k | k in plan.fields :: [k]) + PathsBelow(plan, plan.relationships.Keys)
  }

  ghost function PathsBelow(plan: Plan, keys: set<string>): set<Path>
    requires keys <= plan.relationships.Keys
    decreases plan, 0, keys
  {
    if keys == {} then {}
    else
      var k :| k in keys;
      Under(k, PathSet(plan.relationships[k])) + PathsBelow(plan, keys - {k})
  }

  /** The relationship paths of a tree. */
  ghost function NodeSet(plan: Plan): set<Path>
    decreases plan, 1
  {
    NodesBelow(plan, plan.relationships.Keys)
  }

  ghost function NodesBelow(plan: Plan, keys: set<string>): set<Path>
    requires keys <= plan.relationships.Keys
    decreases plan, 0, keys
  {
    if keys == {} then {}
    else
      var k :| k in keys;
      Under(k, {[]} + NodeSet(plan.relationships[k])) + NodesBelow(plan, keys - {k})
  }

  lemma {:induction false} PathsBelowMembers(plan: Plan, keys: set<string>, p: Path)
    requires keys <= plan.relationships.Keys
    ensures p in PathsBelow(plan, keys) <==> p != [] && p[0] in keys && p[1..] in PathSet(plan.relationships[p[0]])
    decreases keys
  {
    if keys != {} {
      var k :| k in keys
        && PathsBelow(plan, keys) == Under(k, PathSet(plan.relationships[k])) + PathsBelow(plan, keys - {k});
      UnderMembers(k, PathSet(plan.relationships[k]), p);
      PathsBelowMembers(plan, keys - {k}, p);
    }
  }

  lemma {:induction false} NodesBelowMembers(plan: Plan, keys: set<string>, r: Path)
    requires keys <= plan.relationships.Keys
    ensures r in NodesBelow(plan, keys) <==>
            r != [] && r[0] in keys && (r[1..] == [] || r[1..] in NodeSet(plan.relationships[r[0]]))
    decreases keys
  {
    if keys != {} {
      var k :| k in keys
        && NodesBelow(plan, keys) == Under(k, {[]} + NodeSet(plan.relationships[k])) + NodesBelow(plan, keys - {k});
      UnderMembers(k, {[]} + NodeSet(plan.relationships[k]), r);
      NodesBelowMembers(plan, keys - {k}, r);
    }
  }

  lemma {:induction false} PathSetIsSelected(plan: Plan, p: Path)
    ensures p in PathSet(plan) <==> Selects(plan, p)
    decreases |p|
  {
    PathsBelowMembers(plan, plan.relationships.Keys, p);
    assert p in (set k | k in plan.fields :: [k]) <==> |p| == 1 && p[0] in plan.fields by {
      if |p| == 1 { assert p == [p[0]]; }
    }
    if p != [] && p[0] in plan.relationships {
      PathSetIsSelected(plan.relationships[p[0]], p[1..]);
    }
  }

  lemma {:induction false} NodeSetIsNodes(plan: Plan, r: Path)
    ensures r in NodeSet(plan) <==> r != [] && HasNode(plan, r)
    decreases |r|
  {
    NodesBelowMembers(plan, plan.relationships.Keys, r);
    if r != [] && r[0] in plan.relationships {
      NodeSetIsNodes(plan.relationships[r[0]], r[1..]);
    }
  }

  ghost function Listing(keys: set<string>): (s: seq<string>)
    ensures |s| == |keys| && forall k :: k in s <==> k in keys
  {
    if keys == {} then []
    else
      var k :| k in keys;
      [k] + Listing(keys - {k})
  }

  ghost function JoinAll(paths: set<Path>): (keys: set<string>)
  {
    set p | p in paths :: Join(p)
  }

  lemma {:induction false} JoinAllIsSmaller(paths: set<Path>)
    ensures |JoinAll(paths)| <= |paths|
    decreases paths
  {
    if p :| p in paths {
      JoinAllIsSmaller(paths - {p});
      assert JoinAll(paths) == JoinAll(paths - {p}) + {Join(p)};
    } else {
      assert JoinAll(paths) == {};
    }
  }

  /** The node recorded under a dotted key of the tree. */
  lemma KeyNode(plan: Plan, key: string)
    requires NamesPlain(plan) && key in JoinAll(NodeSet(plan))
    ensures HasNode(plan, Split(key)) && IsRelationshipKey(plan, key)
  {
    var r :| r in NodeSet(plan) && key == Join(r);
    NodeSetIsNodes(plan, r);
    NodeNamesArePlain(plan, r);
    SplitJoin(r);
  }

  lemma NodeKey(plan: Plan, rels: Path)
    requires NamesPlain(plan) && rels != [] && HasNode(plan, rels)
    ensures Join(rels) in JoinAll(NodeSet(plan)) && Split(Join(rels)) == rels
  {
    NodeSetIsNodes(plan, rels);
    NodeNamesArePlain(plan, rels);
    SplitJoin(rels);
  }

  lemma ListedAreSelected(plan: Plan, selections: seq<string>)
    requires selections == Listing(JoinAll(PathSet(plan)))
    ensures forall s :: s in selections <==> exists p :: Selects(plan, p) && s == Join(p)
  {
    forall p ensures p in PathSet(plan) <==> Selects(plan, p) {
      PathSetIsSelected(plan, p);
    }
  }

  ghost predicate KeysAreNodes(plan: Plan, keys: set<string>) {
    forall key :: key in keys ==> HasNode(plan, Split(key))
  }

  ghost function ArgumentsMap(plan: Plan, keys: set<string>): (m: map<string, map<string, Json>>)
    requires KeysAreNodes(plan, keys)
    ensures m.Keys == keys && forall key :: key in keys ==> m[key] == NodeAt(plan, Split(key)).arguments
  {
    map key | key in keys :: NodeAt(plan, Split(key)).arguments
  }

  ghost function MaximaMap(plan: Plan, keys: set<string>): (m: map<string, u32>)
    requires KeysAreNodes(plan, keys)
    ensures m.Keys <= keys
    ensures forall key :: key in keys ==>
              (if key in m then Some(m[key]) else None) == NodeAt(plan, Split(key)).maximumItems
  {
    map key | key in keys && NodeAt(plan, Split(key)).maximumItems.Some? :: NodeAt(plan, Split(key)).maximumItems.value
  }

  /** Every plain tree can be flattened, into no more selections than it has leaves. */
  lemma FlattenExists(plan: Plan) returns (c: Compact)
    requires NamesPlain(plan)
    ensures Flattens(plan, c) && |c.selections| <= |PathSet(plan)|
  {
    hide Split, Join, HasNode, NodeAt, Selects, PathSet, NodeSet, NamesPlain, IsRelationshipKey, JoinAll,
      ArgumentsMap, MaximaMap, Listing;
    var keys := JoinAll(NodeSet(plan));
    forall key ensures key in keys <==> IsRelationshipKey(plan, key) {
      KeysAreRelationshipKeys(plan, key);
    }
    forall key | key in keys ensures HasNode(plan, Split(key)) {
      KeyNode(plan, key);
    }
    c := Compact(plan.arguments, Listing(JoinAll(PathSet(plan))), ArgumentsMap(plan, keys), MaximaMap(plan, keys),
      plan.maximumItems);
    ListedAreSelected(plan, c.selections);
    forall rels | rels != [] && HasNode(plan, rels) ensures Join(rels) in keys && Split(Join(rels)) == rels {
      NodeKey(plan, rels);
    }
    JoinAllIsSmaller(PathSet(plan));
  }

  lemma KeysAreRelationshipKeys(plan: Plan, key: string)
    requires NamesPlain(plan)
    ensures key in JoinAll(NodeSet(plan)) <==> IsRelationshipKey(plan, key)
  {
    if key in JoinAll(NodeSet(plan)) {
      KeyNode(plan, key);
    }
    if IsRelationshipKey(plan, key) {
      var rels :| rels != [] && HasNode(plan, rels) && key == Join(rels);
      NodeKey(plan, rels);
    }
  }

  ghost predicate WithinLimits(plan: Plan, maximumSelectedFields: nat, maximumDepth: nat) {
    |PathSet(plan)| <= maximumSelectedFields && forall p :: Selects(plan, p) ==> ValidPath(p, maximumDepth)
  }

  /** The two front ends are equally expressive: every regular tree is the expansion of some compact plan. */
  lemma EveryTreeHasACompactForm(plan: Plan, maximumSelectedFields: nat, maximumDepth: nat) returns (c: Compact)
    requires Regular(plan) && NamesPlain(plan) && WithinLimits(plan, maximumSelectedFields, maximumDepth)
    ensures Expandable(c, maximumSelectedFields, maximumDepth) && Describes(c, plan)
    ensures forall expanded :: Describes(c, expanded) && Regular(expanded) ==> expanded == plan
  {
    c := FlattenExists(plan);
    FlattenedOptionsAreSelected(plan, c);
    forall s | s in c.selections ensures ValidPath(Split(s), maximumDepth) {
      var p :| Selects(plan, p) && s == Join(p);
      SelectedNamesArePlain(plan, p);
      SplitJoin(p);
    }
    ExpandingUndoesFlattening(plan, c, plan);
    forall expanded | Describes(c, expanded) && Regular(expanded) ensures expanded == plan {
      ExpandingUndoesFlattening(plan, c, expanded);
    }
  }

  // ---------------------------------------------------------------- flattening an expanded plan

  predicate NonEmptySegments(p: Path) {
    forall i :: 0 <= i < |p| ==> p[i] != ""
  }

  lemma {:induction false} SegmentsAreDotless(s: string)
    ensures forall i :: 0 <= i < |Split(s)| ==> '.' !in Split(s)[i]
  {
    if s != "" {
      SegmentsAreDotless(s[1..]);
    }
  }

  /** Joining undoes splitting, as long as no segment is empty. */
  lemma {:induction false} JoinSplit(s: string)
    requires NonEmptySegments(Split(s))
    ensures Join(Split(s)) == s
    decreases |s|
  {
    SegmentsAreDotless(s);
    if i :| 0 <= i < |s| && s[i] == '.' && forall j :: 0 <= j < i ==> s[j] != '.' {
      var a, b := s[..i], s[i + 1..];
      assert s == a + "." + b;
      SplitAtDot(a, b);
      var rest := Split(b);
      assert forall k :: 0 <= k < |rest| ==> rest[k] == Split(s)[k + 1];
      assert a == Split(s)[0] && Split(s)[1..] == rest;
      JoinSplit(b);
      assert PlainSegment(a) && forall k :: 0 <= k < |rest| ==> PlainSegment(rest[k]);
      JoinFromUnfold(a, rest);
      assert Join(rest) == JoinFrom(rest[0], rest[1..]);
    } else {
      FirstDot(s);
      SplitPlain(s);
      assert JoinFrom(s, []) == s;
    }
  }

  lemma {:induction false} FirstDot(s: string)
    requires forall i :: 0 <= i < |s| && s[i] == '.' ==> exists j :: 0 <= j < i && s[j] == '.'
    ensures forall i :: 0 <= i < |s| ==> s[i] != '.'
  {
    forall i | 0 <= i < |s| ensures s[i] != '.' {
      NoDotUpTo(s, i);
    }
  }

  lemma {:induction false} NoDotUpTo(s: string, i: nat)
    requires forall i :: 0 <= i < |s| && s[i] == '.' ==> exists j :: 0 <= j < i && s[j] == '.'
    requires i < |s|
    ensures forall j :: 0 <= j <= i ==> s[j] != '.'
  {
    if i > 0 {
      NoDotUpTo(s, i - 1);
    }
  }

  lemma ValidPathIsPlain(p: Path, maximumDepth: nat)
    requires ValidPath(p, maximumDepth)
    ensures NonEmptySegments(p) && forall i :: 0 <= i < |p| ==> PlainSegment(p[i])
  {
  }

  /** The node at the end of a relationship path carries the options recorded for its dotted key. */
  lemma {:induction false} OptionsAt(c: Compact, plan: Plan, prefix: string, rels: Path)
    requires OptionsMatch(c, plan, prefix) && rels != [] && HasNode(plan, rels)
    ensures NodeAt(plan, rels).arguments == ArgumentsAt(c, JoinFrom(prefix, rels))
    ensures NodeAt(plan, rels).maximumItems == MaximumAt(c, JoinFrom(prefix, rels))
    decreases |rels|
  {
    hide ArgumentsAt, MaximumAt;
    var path := JoinPath(prefix, rels[0]);
    if |rels| == 1 {
      assert rels[1..] == [] && JoinFrom(path, []) == path;
    } else {
      OptionsAt(c, plan.relationships[rels[0]], path, rels[1..]);
    }
  }

  /** A selected path passes through the nodes of its prefixes. */
  lemma {:induction false} PrefixIsNode(plan: Plan, p: Path, i: nat)
    requires Selects(plan, p) && i < |p|
    ensures HasNode(plan, p[..i])
    decreases |p|
  {
    if i > 0 {
      PrefixIsNode(plan.relationships[p[0]], p[1..], i - 1);
      assert p[..i][1..] == p[1..][..i - 1];
    }
  }

  lemma {:induction false} SelectedKeyMembers(selections: seq<string>, key: string)
    ensures key in SelectedKeys(selections) <==> exists s :: s in selections && key in RelationshipKeys(s)
    decreases |selections|
  {
    hide RelationshipKeys;
    if selections != [] {
      var n := |selections| - 1;
      SelectedKeyMembers(selections[..n], key);
      assert selections == selections[..n] + [selections[n]];
    }
  }

  /** The option keys a compact plan may use are those of the relationships of its tree. */
  lemma SelectedKeysAreNodes(c: Compact, plan: Plan, key: string)
    requires Describes(c, plan) && key in SelectedKeys(c.selections)
    ensures IsRelationshipKey(plan, key)
  {
    SelectedKeyMembers(c.selections, key);
    var s :| s in c.selections && key in RelationshipKeys(s);
    var p := Split(s);
    assert Selects(plan, p);
    var i :| 1 <= i < |p| && key == Join(p[..i]);
    PrefixIsNode(plan, p, i);
  }

  /**
   * Flattening an expanded plan gives back what was expanded: the same set of selections, and the same options
   * under every key.
   */
  lemma FlatteningUndoesExpanding(c: Compact, plan: Plan, d: Compact, maximumSelectedFields: nat, maximumDepth: nat)
    requires Expandable(c, maximumSelectedFields, maximumDepth) && Describes(c, plan) && Flattens(plan, d)
    ensures forall s :: s in c.selections <==> s in d.selections
    ensures d.arguments == c.arguments && d.maximumItems == c.maximumItems
    ensures forall key :: ArgumentsAt(d, key) == ArgumentsAt(c, key) && MaximumAt(d, key) == MaximumAt(c, key)
  {
    forall s | s in c.selections ensures Join(Split(s)) == s && Selects(plan, Split(s)) {
      ValidPathIsPlain(Split(s), maximumDepth);
      JoinSplit(s);
    }
    hide Selects, Split, Join, OptionsMatch, HasNode;
    forall s ensures s in c.selections <==> s in d.selections {
      if s in d.selections {
        var p :| Selects(plan, p) && s == Join(p);
        var t :| t in c.selections && Split(t) == p;
        assert t == s;
      }
    }
    forall key ensures ArgumentsAt(d, key) == ArgumentsAt(c, key) && MaximumAt(d, key) == MaximumAt(c, key) {
      SameOptions(c, plan, d, key);
    }
  }

  lemma SameOptions(c: Compact, plan: Plan, d: Compact, key: string)
    requires OptionsSelected(c) && Describes(c, plan) && Flattens(plan, d)
    ensures ArgumentsAt(d, key) == ArgumentsAt(c, key) && MaximumAt(d, key) == MaximumAt(c, key)
  {
    if IsRelationshipKey(plan, key) {
      var rels :| rels != [] && HasNode(plan, rels) && key == Join(rels);
      OptionsAt(c, plan, "", rels);
    } else if key in c.relationshipArguments || key in c.relationshipMaximumItems {
      SelectedKeysAreNodes(c, plan, key);
    }
  }

  /** The tree of an expandable plan has plain names, so it can be flattened. */
  lemma {:induction false} DescribedIsPlain(plan: Plan, maximumDepth: nat)
    requires Regular(plan) && forall p :: Selects(plan, p) ==> ValidPath(p, maximumDepth)
    ensures NamesPlain(plan)
    decreases plan
  {
    forall k | k in plan.fields ensures PlainSegment(k) {
      assert Selects(plan, [k]);
      assert ValidPath([k], maximumDepth) && [k][0] == k;
    }
    forall k | k in plan.relationships ensures PlainSegment(k) && NamesPlain(plan.relationships[k]) {
      var child := plan.relationships[k];
      var q := ShapedSelects(child);
      BelowIsValid(plan, k, q, maximumDepth);
      ShapedIsRegular(child);
      forall p | Selects(child, p) ensures ValidPath(p, maximumDepth) {
        BelowIsValid(plan, k, p, maximumDepth);
      }
      DescribedIsPlain(child, maximumDepth);
    }
  }

  lemma BelowIsValid(plan: Plan, k: string, q: Path, maximumDepth: nat)
    requires k in plan.relationships && Selects(plan.relationships[k], q)
    requires forall p :: Selects(plan, p) ==> ValidPath(p, maximumDepth)
    ensures ValidPath(q, maximumDepth) && ValidSegment(k)
  {
    var p := [k] + q;
    assert p[1..] == q && Selects(plan, p);
    assert p[0] == k && forall i :: 0 <= i < |q| ==> q[i] == p[i + 1];
  }

  /** Every expansion can be flattened, and the flattened plan expands to the same tree again. */
  lemma EveryExpansionFlattens(
    c: Compact, plan: Plan, maximumSelectedFields: nat, maximumDepth: nat) returns (d: Compact)
    requires Expandable(c, maximumSelectedFields, maximumDepth) && Describes(c, plan) && Regular(plan)
    ensures Flattens(plan, d) && Describes(d, plan)
    ensures forall s :: s in c.selections <==> s in d.selections
    ensures forall key :: ArgumentsAt(d, key) == ArgumentsAt(c, key) && MaximumAt(d, key) == MaximumAt(c, key)
  {
    forall p | Selects(plan, p) ensures ValidPath(p, maximumDepth) {
    }
    DescribedIsPlain(plan, maximumDepth);
    d := FlattenExists(plan);
    ExpandingUndoesFlattening(plan, d, plan);
    FlatteningUndoesExpanding(c, plan, d, maximumSelectedFields, maximumDepth);
  }
}
