/** The compact front end: dotted selection paths expanded into the plan tree, and back. */
module CompactPlans {
  import opened Common
  import opened JsonModel
  import opened TypeText
  import opened Plans

  datatype Compact = Compact(
    arguments: map<string, Json>,
    selections: seq<string>,
    relationshipArguments: map<string, map<string, Json>>,
    relationshipMaximumItems: map<string, u32>,
    maximumItems: Option<u32>)

  datatype ExpandError =
    SelectionTooLarge | PathInvalid | OptionsAmbiguous | RelationshipPathInvalid | OptionsUnselected

  // ---------------------------------------------------------------- dotted paths

  function Split(s: string): (r: seq<string>)
    ensures r != []
  {
    if s == "" then [""]
    else if s[0] == '.' then [""] + Split(s[1..])
    else
      var rest := Split(s[1..]);
      [[s[0]] + rest[0]] + rest[1..]
  }

  /** `join_selection_path`. */
  function JoinPath(prefix: string, field: string): string {
    if prefix == "" then field else prefix + "." + field
  }

  function JoinFrom(prefix: string, p: Path): string
    decreases |p|
  {
    if p == [] then prefix else JoinFrom(JoinPath(prefix, p[0]), p[1..])
  }

  function Join(p: Path): string {
    JoinFrom("", p)
  }

  /** `valid_graphql_name`. */
  predicate ValidSegment(s: string) {
    ValidName(s) && !("__" <= s)
  }

  ghost predicate ValidPath(p: Path, maximumDepth: nat) {
    0 < |p| <= maximumDepth && forall i :: 0 <= i < |p| ==> ValidSegment(p[i])
  }

  lemma {:induction false} SplitPlain(s: string)
    requires forall i :: 0 <= i < |s| ==> s[i] != '.'
    ensures Split(s) == [s]
  {
    if s != "" {
      SplitPlain(s[1..]);
      assert [s[0]] + s[1..] == s;
    }
  }

  lemma {:induction false} SplitAtDot(a: string, b: string)
    requires forall i :: 0 <= i < |a| ==> a[i] != '.'
    ensures Split(a + "." + b) == [a] + Split(b)
  {
    var s := a + "." + b;
    if a == "" {
      assert s[1..] == b;
    } else {
      assert s[1..] == a[1..] + "." + b;
      SplitAtDot(a[1..], b);
      assert [a[0]] + a[1..] == a;
    }
  }

  predicate PlainSegment(s: string) {
    s != "" && '.' !in s
  }

  /** Joining from the left is dotting from the right. */
  lemma {:induction false} JoinFromUnfold(prefix: string, p: Path)
    requires prefix != "" && p != [] && forall i :: 0 <= i < |p| ==> PlainSegment(p[i])
    ensures JoinFrom(prefix, p) == prefix + "." + JoinFrom(p[0], p[1..])
    decreases |p|
  {
    if |p| > 1 {
      var rest := p[1..];
      JoinFromUnfold(prefix + "." + p[0], rest);
      JoinFromUnfold(p[0], rest);
      var tail := JoinFrom(rest[0], rest[1..]);
      assert (prefix + "." + p[0]) + "." + tail == prefix + "." + (p[0] + "." + tail);
    }
  }

  /** Splitting undoes joining. */
  lemma {:induction false} SplitJoin(p: Path)
    requires p != [] && forall i :: 0 <= i < |p| ==> PlainSegment(p[i])
    ensures Split(Join(p)) == p
    decreases |p|
  {
    var rest := p[1..];
    if rest == [] {
      SplitPlain(p[0]);
      assert JoinFrom(p[0], rest) == p[0] && p == [p[0]];
    } else {
      JoinFromUnfold(p[0], rest);
      SplitJoin(rest);
      SplitAtDot(p[0], Join(rest));
      assert Join(rest) == JoinFrom(rest[0], rest[1..]);
    }
  }

  // ---------------------------------------------------------------- expanding one selection

  function ArgumentsAt(c: Compact, path: string): map<string, Json> {
    if path in c.relationshipArguments then c.relationshipArguments[path] else map[]
  }

  function MaximumAt(c: Compact, path: string): Option<u32> {
    if path in c.relationshipMaximumItems then Some(c.relationshipMaximumItems[path]) else None
  }

  function Fresh(c: Compact, path: string): Plan {
    Plan(ArgumentsAt(c, path), map[], map[], MaximumAt(c, path))
  }

  function ChildOr(c: Compact, node: Plan, name: string, path: string): Plan {
    if name in node.relationships then node.relationships[name] else Fresh(c, path)
  }

  /** The first walk of `expand_compact_selection`: creates the relationships of a path, checking their options. */
  function EnsureRelationships(c: Compact, node: Plan, rels: Path, prefix: string): Result<Plan, ExpandError>
    decreases |rels|
  {
    if rels == [] then Ok(node)
    else
      var path := JoinPath(prefix, rels[0]);
      var child := ChildOr(c, node, rels[0], path);
      if child.arguments != ArgumentsAt(c, path) || child.maximumItems != MaximumAt(c, path) then Err(OptionsAmbiguous)
      else
        var ensured :- EnsureRelationships(c, child, rels[1..], path);
        Ok(node.(relationships := node.relationships[rels[0] := ensured]))
  }

  /** The second walk: follows the relationships again and adds the leaf. */
  function InsertLeaf(node: Plan, rels: Path, leaf: string): Result<Plan, ExpandError>
    decreases |rels|
  {
    if rels == [] then Ok(node.(fields := node.fields[leaf := true]))
    else if rels[0] !in node.relationships then Err(RelationshipPathInvalid)
    else
      var inserted :- InsertLeaf(node.relationships[rels[0]], rels[1..], leaf);
      Ok(node.(relationships := node.relationships[rels[0] := inserted]))
  }

  /** The dotted relationship paths that one selection passes through. */
  function RelationshipKeys(selection: string): set<string> {
    var segments := Split(selection);
    set i | 1 <= i < |segments| :: Join(segments[..i])
  }

  // ---------------------------------------------------------------- what expansion keeps

  /** Each relationship carries the options recorded for its own dotted path. */
  ghost predicate OptionsMatch(c: Compact, plan: Plan, prefix: string)
    decreases plan
  {
    forall k :: k in plan.relationships ==>
      && plan.relationships[k].arguments == ArgumentsAt(c, JoinPath(prefix, k))
      && plan.relationships[k].maximumItems == MaximumAt(c, JoinPath(prefix, k))
      && OptionsMatch(c, plan.relationships[k], JoinPath(prefix, k))
  }

  /** All flags are true and every relationship selects something. */
  ghost predicate Regular(plan: Plan) {
    && (forall k :: k in plan.fields ==> plan.fields[k])
    && forall k :: k in plan.relationships ==> Shaped(plan.relationships[k])
  }

  /** Both walks in one. */
  function Insert(c: Compact, node: Plan, p: Path, prefix: string): Plan
    requires p != []
    decreases |p|
  {
    if |p| == 1 then node.(fields := node.fields[p[0] := true])
    else
      var path := JoinPath(prefix, p[0]);
      node.(relationships := node.relationships[p[0] := Insert(c, ChildOr(c, node, p[0], path), p[1..], path)])
  }

  /** On a tree whose options match, neither walk can fail. */
  lemma {:induction false} WalksNeverFail(c: Compact, node: Plan, rels: Path, leaf: string, prefix: string)
    requires OptionsMatch(c, node, prefix)
    ensures var ensured := EnsureRelationships(c, node, rels, prefix);
            ensured.Ok? && InsertLeaf(ensured.value, rels, leaf) == Ok(Insert(c, node, rels + [leaf], prefix))
    decreases |rels|
  {
    var p := rels + [leaf];
    if rels == [] {
      assert p[0] == leaf;
    } else {
      var path := JoinPath(prefix, rels[0]);
      var child := ChildOr(c, node, rels[0], path);
      WalksNeverFail(c, child, rels[1..], leaf, path);
      assert p[1..] == rels[1..] + [leaf];
      var ensured := EnsureRelationships(c, child, rels[1..], path).value;
      var inserted := InsertLeaf(ensured, rels[1..], leaf).value;
      assert node.relationships[rels[0] := ensured][rels[0] := inserted] == node.relationships[rels[0] := inserted];
    }
  }

  lemma ChildReplaced(c: Compact, node: Plan, k: string, child: Plan, prefix: string)
    requires OptionsMatch(c, node, prefix) && OptionsMatch(c, child, JoinPath(prefix, k))
    requires child.arguments == ArgumentsAt(c, JoinPath(prefix, k))
      && child.maximumItems == MaximumAt(c, JoinPath(prefix, k))
    ensures OptionsMatch(c, node.(relationships := node.relationships[k := child]), prefix)
  {
    hide JoinPath, ArgumentsAt, MaximumAt;
  }

  lemma FieldAdded(c: Compact, node: Plan, k: string, prefix: string)
    requires OptionsMatch(c, node, prefix)
    ensures OptionsMatch(c, node.(fields := node.fields[k := true]), prefix)
  {
    hide JoinPath, ArgumentsAt, MaximumAt;
  }

  lemma ChildOrMatches(c: Compact, node: Plan, k: string, prefix: string)
    requires OptionsMatch(c, node, prefix)
    ensures var path := JoinPath(prefix, k);
      var child := ChildOr(c, node, k, path);
      OptionsMatch(c, child, path) && child.arguments == ArgumentsAt(c, path)
        && child.maximumItems == MaximumAt(c, path)
  {
    hide JoinPath, ArgumentsAt, MaximumAt;
  }

  lemma {:induction false} InsertMatches(c: Compact, node: Plan, p: Path, prefix: string)
    requires p != [] && OptionsMatch(c, node, prefix)
    ensures OptionsMatch(c, Insert(c, node, p, prefix), prefix)
    ensures Insert(c, node, p, prefix).arguments == node.arguments
    ensures Insert(c, node, p, prefix).maximumItems == node.maximumItems
    decreases |p|
  {
    hide JoinPath, OptionsMatch, ChildOr, ArgumentsAt, MaximumAt;
    if |p| == 1 {
      FieldAdded(c, node, p[0], prefix);
    } else {
      var path := JoinPath(prefix, p[0]);
      ChildOrMatches(c, node, p[0], prefix);
      InsertMatches(c, ChildOr(c, node, p[0], path), p[1..], path);
      ChildReplaced(c, node, p[0], Insert(c, ChildOr(c, node, p[0], path), p[1..], path), prefix);
    }
  }

  lemma {:induction false} InsertIsRegular(c: Compact, node: Plan, p: Path, prefix: string)
    requires p != [] && Regular(node)
    ensures Shaped(Insert(c, node, p, prefix))
    decreases |p|
  {
    var after := Insert(c, node, p, prefix);
    if |p| == 1 {
      assert p[0] in after.fields;
    } else {
      var path := JoinPath(prefix, p[0]);
      InsertIsRegular(c, ChildOr(c, node, p[0], path), p[1..], path);
      assert p[0] in after.relationships;
    }
  }

  lemma ShapedIsRegular(plan: Plan)
    requires Shaped(plan)
    ensures Regular(plan)
  {
  }

  /** An insertion adds its own path and nothing else. */
  lemma {:induction false} InsertSelects(c: Compact, node: Plan, p: Path, prefix: string, q: Path)
    requires p != []
    ensures Selects(Insert(c, node, p, prefix), q) <==> Selects(node, q) || q == p
    decreases |p|
  {
    if |p| == 1 {
      assert q == p <==> |q| == 1 && q[0] == p[0];
    } else {
      var path := JoinPath(prefix, p[0]);
      var child := ChildOr(c, node, p[0], path);
      if q != [] {
        InsertSelects(c, child, p[1..], path, q[1..]);
        assert q == [q[0]] + q[1..] && p == [p[0]] + p[1..];
      }
    }
  }

  /** A regular tree is determined by the paths it selects and the options of those paths. */
  lemma {:induction false} TreeIsDetermined(c: Compact, a: Plan, b: Plan, prefix: string)
    requires Regular(a) && Regular(b) && OptionsMatch(c, a, prefix) && OptionsMatch(c, b, prefix)
    requires a.arguments == b.arguments && a.maximumItems == b.maximumItems
    requires forall p :: Selects(a, p) <==> Selects(b, p)
    ensures a == b
    decreases a
  {
    hide JoinPath, Shaped;
    forall k ensures k in a.fields <==> k in b.fields {
      assert Selects(a, [k]) <==> Selects(b, [k]);
    }
    assert a.fields == b.fields;
    forall k | k in a.relationships || k in b.relationships
      ensures k in a.relationships && k in b.relationships && a.relationships[k] == b.relationships[k]
    {
      SameRelationship(a, b, k);
      ShapedIsRegular(a.relationships[k]);
      ShapedIsRegular(b.relationships[k]);
      forall p ensures Selects(a.relationships[k], p) <==> Selects(b.relationships[k], p) {
        if p != [] {
          var q := [k] + p;
          assert q[1..] == p;
          assert Selects(a, q) <==> Selects(b, q);
        }
      }
      TreeIsDetermined(c, a.relationships[k], b.relationships[k], JoinPath(prefix, k));
    }
    assert a.relationships == b.relationships;
  }

  lemma SameRelationship(a: Plan, b: Plan, k: string)
    requires Regular(a) && Regular(b) && (k in a.relationships || k in b.relationships)
    requires forall p :: Selects(a, p) <==> Selects(b, p)
    ensures k in a.relationships && k in b.relationships
  {
    var p := ShapedSelects(if k in a.relationships then a.relationships[k] else b.relationships[k]);
    var q := [k] + p;
    assert q[1..] == p;
    assert Selects(a, q) <==> Selects(b, q);
  }

  // ---------------------------------------------------------------- expanding a whole plan

  function StartPlan(c: Compact): Plan {
    Plan(c.arguments, map[], map[], c.maximumItems)
  }

  /** `AiGraphqlQueryPlan` while `expand_compact_plan` edits it. */
  class Expansion {
    var plan: Plan
    var selectedRelationships: set<string>

    constructor (c: Compact)
      ensures plan == StartPlan(c) && selectedRelationships == {}
    {
      plan := StartPlan(c);
      selectedRelationships := {};
    }

    /** The first walk: down the path, creating and checking, then the edited nodes back into the plan. */
    method EnsureWalk(c: Compact, rels: Path) returns (failure: Option<ExpandError>)
      modifies this
      ensures match EnsureRelationships(c, old(plan), rels, "")
              case Err(error) => failure == Some(error)
              case Ok(ensured) => failure.None? && plan == ensured
      ensures failure.None? ==> selectedRelationships == old(selectedRelationships) + KeysOf(rels, |rels|)
    {
      hide JoinPath, Join, ArgumentsAt, MaximumAt, ChildOr;
      var spine: seq<Plan>, node, prefix := [], plan, "";
      NoKeys(rels);
      for i := 0 to |rels|
        invariant |spine| == i && prefix == Join(rels[..i]) && plan == old(plan)
        invariant selectedRelationships == old(selectedRelationships) + KeysOf(rels, i)
        invariant Rebuild(spine, rels, EnsureRelationships(c, node, rels[i..], prefix))
                  == EnsureRelationships(c, old(plan), rels, "")
      {
        NextKey(rels, i);
        RebuildFails(spine, rels, OptionsAmbiguous);
        assert rels[i..][1..] == rels[i + 1..];
        prefix := JoinPath(prefix, rels[i]);
        selectedRelationships := selectedRelationships + {prefix};
        var child := ChildOr(c, node, rels[i], prefix);
        if child.arguments != ArgumentsAt(c, prefix) || child.maximumItems != MaximumAt(c, prefix) {
          return Some(OptionsAmbiguous);
        }
        Deeper(spine, rels, node, EnsureRelationships(c, child, rels[i + 1..], prefix));
        spine := spine + [node];
        node := child;
      }
      plan := WriteBack(spine, rels, node);
      failure := None;
    }

    /** The second walk: down the path again to the parent of the leaf. */
    method LeafWalk(rels: Path, leaf: string) returns (failure: Option<ExpandError>)
      modifies this`plan
      ensures match InsertLeaf(old(plan), rels, leaf)
              case Err(error) => failure == Some(error)
              case Ok(inserted) => failure.None? && plan == inserted
    {
      var spine: seq<Plan>, node := [], plan;
      assert rels[0..] == rels;
      for i := 0 to |rels|
        invariant |spine| == i && plan == old(plan)
        invariant Rebuild(spine, rels, InsertLeaf(node, rels[i..], leaf)) == InsertLeaf(old(plan), rels, leaf)
      {
        RebuildFails(spine, rels, RelationshipPathInvalid);
        assert rels[i..][1..] == rels[i + 1..];
        if rels[i] !in node.relationships {
          return Some(RelationshipPathInvalid);
        }
        Deeper(spine, rels, node, InsertLeaf(node.relationships[rels[i]], rels[i + 1..], leaf));
        spine := spine + [node];
        node := node.relationships[rels[i]];
      }
      plan := WriteBack(spine, rels, node.(fields := node.fields[leaf := true]));
      failure := None;
    }

    /** `expand_compact_selection`: on a tree whose options match, it fails exactly on an invalid path. */
    method Expand(c: Compact, selection: string, maximumDepth: nat) returns (failure: Option<ExpandError>)
      requires OptionsMatch(c, plan, "")
      modifies this
      ensures failure.Some? <==> !ValidPath(Split(selection), maximumDepth)
      ensures failure.Some? ==> failure == Some(PathInvalid) && plan == old(plan)
      ensures failure.None? ==> plan == Insert(c, old(plan), Split(selection), "")
      ensures failure.None? ==> selectedRelationships == old(selectedRelationships) + RelationshipKeys(selection)
    {
      hide OptionsMatch, Insert, Split;
      var segments := Split(selection);
      if |segments| > maximumDepth || exists i :: 0 <= i < |segments| && !ValidSegment(segments[i]) {
        return Some(PathInvalid);
      }
      SingleInsert(c, plan, segments);
      KeysOfSelection(selection);
      if |segments| == 1 {
        plan := plan.(fields := plan.fields[segments[0] := true]);
        return None;
      }
      var rels, leaf := segments[..|segments| - 1], segments[|segments| - 1];
      assert segments == rels + [leaf];
      WalksNeverFail(c, plan, rels, leaf, "");
      failure := EnsureWalk(c, rels);
      if failure.Some? {
        return;
      }
      failure := LeafWalk(rels, leaf);
    }
  }

  /** The nodes above the one being edited, put back around it. */
  function Rebuild(spine: seq<Plan>, rels: Path, r: Result<Plan, ExpandError>): Result<Plan, ExpandError>
    requires |spine| <= |rels|
    decreases |spine|
  {
    if spine == [] then r
    else
      var n := |spine| - 1;
      Rebuild(spine[..n], rels, Around(spine[n], rels[n], r))
  }

  function Around(node: Plan, name: string, r: Result<Plan, ExpandError>): Result<Plan, ExpandError> {
    match r
    case Err(error) => Err(error)
    case Ok(child) => Ok(node.(relationships := node.relationships[name := child]))
  }

  lemma {:induction false} RebuildFails(spine: seq<Plan>, rels: Path, error: ExpandError)
    requires |spine| <= |rels|
    ensures Rebuild(spine, rels, Err(error)) == Err(error)
    decreases |spine|
  {
    if spine != [] {
      RebuildFails(spine[..|spine| - 1], rels, error);
    }
  }

  lemma Deeper(spine: seq<Plan>, rels: Path, node: Plan, r: Result<Plan, ExpandError>)
    requires |spine| < |rels|
    ensures Rebuild(spine + [node], rels, r) == Rebuild(spine, rels, Around(node, rels[|spine|], r))
  {
    assert (spine + [node])[..|spine|] == spine;
  }

  method WriteBack(spine: seq<Plan>, rels: Path, leaf: Plan) returns (root: Plan)
    requires |spine| <= |rels|
    ensures Ok(root) == Rebuild(spine, rels, Ok(leaf))
  {
    root := leaf;
    assert spine[..|spine|] == spine;
    for i := |spine| downto 0
      invariant Rebuild(spine[..i], rels, Ok(root)) == Rebuild(spine, rels, Ok(leaf))
    {
      assert spine[..i + 1][..i] == spine[..i];
      root := spine[i].(relationships := spine[i].relationships[rels[i] := root]);
    }
  }

  /** The dotted keys of the first `n` relationships of a path. */
  ghost function KeysOf(rels: Path, n: nat): set<string>
    requires n <= |rels|
  {
    set j | 1 <= j <= n :: Join(rels[..j])
  }

  lemma NoKeys(rels: Path)
    ensures KeysOf(rels, 0) == {} && rels[..0] == [] && Join([]) == "" && rels[0..] == rels
  {
  }

  lemma NextKey(rels: Path, i: nat)
    requires i < |rels|
    ensures Join(rels[..i + 1]) == JoinPath(Join(rels[..i]), rels[i])
    ensures KeysOf(rels, i + 1) == KeysOf(rels, i) + {Join(rels[..i + 1])}
  {
    JoinSnoc("", rels[..i], rels[i]);
    assert rels[..i + 1] == rels[..i] + [rels[i]];
  }

  lemma {:induction false} JoinSnoc(prefix: string, rels: Path, k: string)
    ensures JoinFrom(prefix, rels + [k]) == JoinPath(JoinFrom(prefix, rels), k)
    decreases |rels|
  {
    if rels == [] {
      assert (rels + [k])[1..] == [] && JoinFrom(JoinPath(prefix, k), []) == JoinPath(prefix, k);
    } else {
      JoinSnoc(JoinPath(prefix, rels[0]), rels[1..], k);
      assert (rels + [k])[1..] == rels[1..] + [k];
    }
  }

  lemma KeysOfSelection(selection: string)
    ensures var p := Split(selection); KeysOf(p[..|p| - 1], |p| - 1) == RelationshipKeys(selection)
  {
    var p := Split(selection);
    var rels := p[..|p| - 1];
    assert forall j :: 1 <= j < |p| ==> rels[..j] == p[..j];
  }

  /** The relationship paths that some selection passes through. */
  function SelectedKeys(selections: seq<string>): set<string> {
    if selections == [] then {}
    else SelectedKeys(selections[..|selections| - 1]) + RelationshipKeys(selections[|selections| - 1])
  }

  lemma {:induction false} SelectedKeysInclude(selections: seq<string>, i: nat)
    requires i < |selections|
    ensures RelationshipKeys(selections[i]) <= SelectedKeys(selections)
  {
    if i < |selections| - 1 {
      SelectedKeysInclude(selections[..|selections| - 1], i);
    }
  }

  ghost predicate OptionsSelected(c: Compact) {
    c.relationshipArguments.Keys + c.relationshipMaximumItems.Keys <= SelectedKeys(c.selections)
  }

  /** What a caller can check beforehand: exactly the compact plans that expand. */
  ghost predicate Expandable(c: Compact, maximumSelectedFields: nat, maximumDepth: nat) {
    && |c.selections| <= maximumSelectedFields
    && (forall s :: s in c.selections ==> ValidPath(Split(s), maximumDepth))
    && OptionsSelected(c)
  }

  /** The tree says what the compact plan says, no more and no less. */
  ghost predicate Describes(c: Compact, plan: Plan) {
    && plan.arguments == c.arguments && plan.maximumItems == c.maximumItems
    && OptionsMatch(c, plan, "")
    && forall p :: Selects(plan, p) <==> exists s :: s in c.selections && Split(s) == p
  }

  ghost predicate Expanded(c: Compact, plan: Plan, done: seq<string>) {
    && plan.arguments == c.arguments && plan.maximumItems == c.maximumItems
    && OptionsMatch(c, plan, "") && Regular(plan)
    && forall p :: Selects(plan, p) <==> exists s :: s in done && Split(s) == p
  }

  lemma SingleInsert(c: Compact, plan: Plan, p: Path)
    requires p != []
    ensures |p| == 1 ==> Insert(c, plan, p, "") == plan.(fields := plan.fields[p[0] := true])
  {
  }

  lemma ExpandStep(c: Compact, plan: Plan, done: seq<string>, selection: string)
    requires Expanded(c, plan, done)
    ensures Expanded(c, Insert(c, plan, Split(selection), ""), done + [selection])
  {
    hide OptionsMatch, Regular, Selects, Split, Insert;
    var p := Split(selection);
    InsertMatches(c, plan, p, "");
    InsertIsRegular(c, plan, p, "");
    var after := Insert(c, plan, p, "");
    ShapedIsRegular(after);
    forall q ensures Selects(after, q) <==> exists s :: s in done + [selection] && Split(s) == q {
      InsertSelects(c, plan, p, "", q);
      assert selection in done + [selection];
      if s :| s in done && Split(s) == q {
        assert s in done + [selection];
      } else if s :| s in done + [selection] && Split(s) == q {
        assert s == selection;
      }
    }
  }

  lemma ExpandedMatches(c: Compact, plan: Plan, done: seq<string>)
    requires Expanded(c, plan, done)
    ensures OptionsMatch(c, plan, "")
  {
  }

  lemma StartIsExpanded(c: Compact)
    ensures Expanded(c, StartPlan(c), [])
  {
  }

  lemma ExpandedDescribes(c: Compact, plan: Plan)
    requires Expanded(c, plan, c.selections)
    ensures Describes(c, plan) && Regular(plan)
  {
  }

  /** `expand_compact_plan`: succeeds exactly on expandable plans, and then with the tree they describe. */
  method ExpandCompactPlan(
    c: Compact, maximumSelectedFields: nat, maximumDepth: nat) returns (r: Result<Plan, ExpandError>)
    ensures r.Ok? <==> Expandable(c, maximumSelectedFields, maximumDepth)
    ensures r.Ok? ==> Describes(c, r.value) && Regular(r.value)
    ensures r.Err? ==> r.error in {SelectionTooLarge, PathInvalid, OptionsUnselected}
  {
    hide Expanded, Describes, Regular, OptionsMatch, Insert, ValidPath, RelationshipKeys, Split;
    if |c.selections| > maximumSelectedFields {
      return Err(SelectionTooLarge);
    }
    var expansion := new Expansion(c);
    StartIsExpanded(c);
    var i := 0;
    while i < |c.selections|
      invariant i <= |c.selections|
      invariant Expanded(c, expansion.plan, c.selections[..i])
      invariant forall j :: 0 <= j < i ==> ValidPath(Split(c.selections[j]), maximumDepth)
      invariant expansion.selectedRelationships == SelectedKeys(c.selections[..i])
    {
      ExpandStep(c, expansion.plan, c.selections[..i], c.selections[i]);
      ExpandedMatches(c, expansion.plan, c.selections[..i]);
      assert c.selections[..i + 1] == c.selections[..i] + [c.selections[i]];
      var failure := expansion.Expand(c, c.selections[i], maximumDepth);
      if failure.Some? {
        assert c.selections[i] in c.selections;
        return Err(failure.value);
      }
      i := i + 1;
    }
    assert c.selections[..i] == c.selections;
    ExpandedDescribes(c, expansion.plan);
    if !(c.relationshipArguments.Keys + c.relationshipMaximumItems.Keys <= expansion.selectedRelationships) {
      return Err(OptionsUnselected);
    }
    r := Ok(expansion.plan);
  }

  /** The expanded tree does not depend on the order or repetition of selections, nor on anything unselected. */
  lemma ExpansionIsCanonical(c: Compact, d: Compact, a: Plan, b: Plan)
    requires Describes(c, a) && Regular(a) && Describes(d, b) && Regular(b)
    requires c.(selections := []) == d.(selections := [])
    requires forall s :: s in c.selections <==> s in d.selections
    ensures a == b
  {
    OptionsAreTheSame(c, d, b, "");
    TreeIsDetermined(c, a, b, "");
  }

  lemma {:induction false} OptionsAreTheSame(c: Compact, d: Compact, plan: Plan, prefix: string)
    requires c.(selections := []) == d.(selections := []) && OptionsMatch(d, plan, prefix)
    ensures OptionsMatch(c, plan, prefix)
    decreases plan
  {
    forall k | k in plan.relationships ensures OptionsMatch(c, plan.relationships[k], JoinPath(prefix, k)) {
      OptionsAreTheSame(c, d, plan.relationships[k], JoinPath(prefix, k));
    }
  }
}
