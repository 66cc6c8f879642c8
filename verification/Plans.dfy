/**
 * Model-authored query plans as one kind of tree, the dotted paths that a tree selects, and what it means for
 * a tree to have true flags and no empty node.
 */
module Plans {
  import opened Common
  import opened JsonModel

  /** `AiGraphqlQueryPlan` and `AiGraphqlRelationshipQueryPlan` have the same four fields; one tree models both. */
  datatype Plan = Plan(
    arguments: map<string, Json>,
    fields: map<string, bool>,
    relationships: map<string, Plan>,
    maximumItems: Option<u32>)

  type Path = seq<string>

  /** A path that a plan selects. */
  predicate Selects(plan: Plan, p: Path)
    decreases |p|
  {
    && p != []
    && if |p| == 1 then p[0] in plan.fields else p[0] in plan.relationships && Selects(plan.relationships[p[0]], p[1..])
  }

  /** Every flag is true and no node of the plan is empty. */
  ghost predicate Shaped(plan: Plan) {
    && (forall k :: k in plan.fields ==> plan.fields[k])
    && (plan.fields != map[] || plan.relationships != map[])
    && forall k :: k in plan.relationships ==> Shaped(plan.relationships[k])
  }

  lemma {:induction false} ShapedSelects(plan: Plan) returns (p: Path)
    requires Shaped(plan)
    ensures Selects(plan, p)
    decreases plan
  {
    if k :| k in plan.fields {
      p := [k];
    } else {
      var k :| k in plan.relationships;
      var rest := ShapedSelects(plan.relationships[k]);
      p := [k] + rest;
      assert p[1..] == rest;
    }
  }
}
