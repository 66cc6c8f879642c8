/**
 * Variable lifting over a whole compilation: which variables a document uses, in which order, and how the
 * values, definitions and schemas that were collected on the way line up with them.
 */
module Lifting {
  import opened Common
  import opened Schema
  import opened Routes
  import opened Execution
  import opened Plans
  import opened Arguments
  import opened Compiler

  /** Names of the variables a selection set uses, in document order. */
  function UsedInSelections(selections: seq<Selection>): seq<string> {
    if selections == [] then []
    else UsedIn(selections[0].arguments) + UsedInSelections(selections[0].sub) + UsedInSelections(selections[1..])
  }

  /** From one state to another, the selections use exactly the variables that were added, in order. */
  ghost predicate Lifted(before: State, after: State, selections: seq<Selection>) {
    && Consistent(after) && Extends(before, after)
    && UsedInSelections(selections) == VariableNames(before.arguments, after.arguments)
  }

  lemma {:induction false} UsedAppend(a: seq<Selection>, b: seq<Selection>)
    ensures UsedInSelections(a + b) == UsedInSelections(a) + UsedInSelections(b)
    decreases |a|
  {
    if a == [] {
      assert a + b == b;
    } else {
      assert (a + b)[1..] == a[1..] + b;
      UsedAppend(a[1..], b);
    }
  }

  lemma UsedInOne(s: Selection)
    ensures UsedInSelections([s]) == UsedIn(s.arguments) + UsedInSelections(s.sub)
  {
    assert [s][1..] == [];
  }

  lemma {:induction false} WrapUsesNothing(
    route: Route, sub: seq<Selection>, shape: Disclosure.Shape, maximumItems: u32)
    ensures UsedInSelections(WrapRoute(route, sub, shape, maximumItems).0) == UsedInSelections(sub)
  {
    if route != [] {
      WrapUsesNothing(route[1..], sub, shape, maximumItems);
      var inner := WrapRoute(route[1..], sub, shape, maximumItems).0;
      UsedInOne(Selection(route[0].fieldName, route[0].fieldName, [], inner));
    }
  }

  /** Adding a field whose variables are the next ones keeps the partial selection lifted. */
  lemma LiftedAppend(before: State, middle: State, after: State, rendered: seq<Selection>, s: Selection)
    requires Lifted(before, middle, rendered) && Consistent(after) && Extends(middle, after)
    requires UsedInSelections([s]) == VariableNames(middle.arguments, after.arguments)
    ensures Lifted(before, after, rendered + [s])
  {
    UsedAppend(rendered, [s]);
    ExtendsTransitive(before, middle, after);
    NamesSplit(before.arguments, middle.arguments, after.arguments);
  }

  lemma {:induction false} ScalarsLift(
    cap: Capability, entityName: string, fields: seq<Field>, plan: Plan, before: State, p: Partial)
    requires Lifted(before, p.state, p.rendered)
    requires CompileScalars(cap, entityName, fields, plan, p).Ok?
    ensures var q := CompileScalars(cap, entityName, fields, plan, p).value; Lifted(before, q.state, q.rendered)
    decreases |fields|
  {
    if fields != [] {
      var f := fields[0];
      if f.name !in plan.fields {
        ScalarsLift(cap, entityName, fields[1..], plan, before, p);
      } else {
        var s := Selection(f.name, f.name, [], []);
        UsedInOne(s);
        LiftedAppend(before, p.state, Count(p.state), p.rendered, s);
        ScalarsLift(cap, entityName, fields[1..], plan, before, AddScalar(p, f));
      }
    }
  }

  lemma HeadLifts(cap: Capability, entityName: string, f: Field, plan: Plan, ancestry: seq<string>, st: State)
    requires Consistent(st) && CompileRelationshipHead(cap, entityName, f, plan, ancestry, st).Ok?
    ensures var head := CompileRelationshipHead(cap, entityName, f, plan, ancestry, st).value;
            && Consistent(head.state) && Extends(st, head.state)
            && UsedIn(head.arguments) == VariableNames(st.arguments, head.state.arguments)
  {
    var inputs := ObjectField(cap.types, entityName, f.name).value.arguments;
    var pageable := ModelMaySelectMaximum(CollectionExecution(f.relationship.value).value);
    var head := CompileRelationshipHead(cap, entityName, f, plan, ancestry, st).value;
    ArgumentsAreLifted(cap.types, cap.limits, cap.validators, st, inputs, plan.arguments, plan.maximumItems, pageable,
      pageable, head.state.variables);
  }

  lemma {:induction false} RelationshipsLift(cap: Capability, entityName: string, fields: seq<Field>, plan: Plan,
                                             ancestry: seq<string>, depth: nat, before: State, p: Partial)
    requires depth < cap.limits.maximumDepth && Lifted(before, p.state, p.rendered)
    requires CompileRelationships(cap, entityName, fields, plan, ancestry, depth, p).Ok?
    ensures var q := CompileRelationships(cap, entityName, fields, plan, ancestry, depth, p).value;
            Lifted(before, q.state, q.rendered) && Extends(p.state, q.state)
    decreases cap.limits.maximumDepth - depth, 1, |fields|
  {
    if fields != [] {
      var f := fields[0];
      if f.name !in plan.relationships {
        RelationshipsLift(cap, entityName, fields[1..], plan, ancestry, depth, before, p);
      } else {
        RelationshipLifts(cap, entityName, f, plan.relationships[f.name], ancestry, depth, before, p);
        var q := CompileRelationship(cap, entityName, f, plan.relationships[f.name], ancestry, depth, p).value;
        RelationshipsLift(cap, entityName, fields[1..], plan, ancestry, depth, before, q);
        ExtendsTransitive(p.state, q.state,
          CompileRelationships(cap, entityName, fields[1..], plan, ancestry, depth, q).value.state);
      }
    }
  }

  lemma {:induction false} RelationshipLifts(cap: Capability, entityName: string, f: Field, plan: Plan,
                                             ancestry: seq<string>, depth: nat, before: State, p: Partial)
    requires depth < cap.limits.maximumDepth && Lifted(before, p.state, p.rendered)
    requires CompileRelationship(cap, entityName, f, plan, ancestry, depth, p).Ok?
    ensures var q := CompileRelationship(cap, entityName, f, plan, ancestry, depth, p).value;
            Lifted(before, q.state, q.rendered) && Extends(p.state, q.state)
    decreases cap.limits.maximumDepth - depth, 0
  {
    var head := CompileRelationshipHead(cap, entityName, f, plan, ancestry, p.state).value;
    HeadLifts(cap, entityName, f, plan, ancestry, p.state);
    var target := f.relationship.value.target;
    EntityLifts(cap, head.state, target, plan, ancestry + [target], depth + 1);
    var nested := CompileEntity(cap, head.state, target, plan, ancestry + [target], depth + 1).value;
    var route := SpecificRoute(cap.types, target, head.ty, cap.limits.maximumDepth).value;
    WrapUsesNothing(route, nested.selections, nested.shape, head.maximum);
    var s := Selection(f.name, f.name, head.arguments,
      WrapRoute(route, nested.selections, nested.shape, head.maximum).0);
    UsedInOne(s);
    NamesSplit(p.state.arguments, head.state.arguments, nested.state.arguments);
    ExtendsTransitive(p.state, head.state, nested.state);
    LiftedAppend(before, p.state, Count(nested.state), p.rendered, s);
  }

  lemma {:induction false} EntityLifts(
    cap: Capability, st: State, entityName: string, plan: Plan, ancestry: seq<string>, depth: nat)
    requires Consistent(st) && CompileEntity(cap, st, entityName, plan, ancestry, depth).Ok?
    ensures var c := CompileEntity(cap, st, entityName, plan, ancestry, depth).value; Lifted(st, c.state, c.selections)
    decreases cap.limits.maximumDepth - depth, 2
  {
    var fields := cap.catalog[entityName].fields;
    var p := Partial(st, [], map[]);
    ScalarsLift(cap, entityName, fields, plan, st, p);
    RelationshipsLift(cap, entityName, fields, plan, ancestry, depth, st,
      CompileScalars(cap, entityName, fields, plan, p).value);
  }

  /**
   * Over a whole compilation the document uses the variables `v0`, `v1`, ... each exactly once and in order, and
   * values, definitions, schemas and the argument counter all describe exactly these variables.
   */
  lemma DocumentUsesEachVariableOnce(cap: Capability, plan: Plan)
    requires CompileTypedPlan(cap, plan).Ok?
    ensures var c := CompileTypedPlan(cap, plan).value;
            && UsedInSelections([c.document]) == VariableNames(0, c.state.arguments)
            && Distinct(UsedInSelections([c.document]))
            && |c.state.variables| == |c.state.schemas| == |c.state.definitions|
              == c.state.arguments <= cap.limits.maximumArguments
            && Consistent(c.state)
  {
    var c := CompileTypedPlan(cap, plan).value;
    var root := ObjectField(cap.types, cap.queryRoot, cap.fieldName).value;
    var inject := RootBoundArgument(cap.types, root, cap.route).value;
    assert Consistent(EMPTY_STATE);
    var (st, arguments) := CompileArguments(cap.types, cap.limits, cap.validators, EMPTY_STATE, root.arguments,
      plan.arguments,
                                            plan.maximumItems, HasList(cap.route), inject).value;
    ArgumentsAreLifted(cap.types, cap.limits, cap.validators, EMPTY_STATE, root.arguments, plan.arguments,
      plan.maximumItems,
                       HasList(cap.route), inject, st.variables);
    EntityLifts(cap, st, cap.entity, plan, [cap.entity], 0);
    var entity := CompileEntity(cap, st, cap.entity, plan, [cap.entity], 0).value;
    var maximum: u32 := if plan.maximumItems.Some? then plan.maximumItems.value else 1;
    WrapUsesNothing(cap.route, entity.selections, entity.shape, maximum);
    UsedInOne(c.document);
    NamesSplit(0, st.arguments, c.state.arguments);
    NameSetMembers(c.state.arguments, 0);
    assert |c.state.variables.Keys| == |c.state.schemas.Keys| == c.state.arguments;
    var used := UsedInSelections([c.document]);
    forall i, j | 0 <= i < j < |used| ensures used[i] != used[j] {
      VariableNameInjective(i, j);
    }
  }
}
